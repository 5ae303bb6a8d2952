/** Entering a name in a directory on the device and taking it out again: room for its entries, the entries
    written one by one, freed one by one, or patched in place (kernel/fat32.c:543-573,
    kernel/fat32.c:974-1075, kernel/fat32.c:1283-1307, kernel/fat32.c:1396-1406). */
module Entering {
  import opened Bytes
  import opened Geometry
  import opened Quotient
  import opened Chains
  import opened FatCache
  import opened ClusterData
  import opened Evolution
  import opened Allocation
  import opened Growth
  import opened FileBytes
  import opened Names
  import opened LongNames
  import opened ShortNames
  import opened Layout
  import opened Edits
  import opened Spelling
  import opened NodeList
  import opened DirectoryIo
  import opened Directory

  ghost predicate Dotting(n: int) { true }

  /** Entries that start with a dot are no file's: "." and "..". Folded behind `Dotting`. */
  ghost predicate Dotted(e: Entries, c: Index) {
    forall n: int :: Dotting(n) ==> forall i :: 0 <= i < |e| && e[i][0] == DOT ==> i !in c && !IsFragmentEntry(e[i])
  }

  /** The directory holds exactly the files of `c`, and dot entries besides. */
  ghost predicate WellKept(e: Entries, c: Index) {
    Holds(e, c) && Dotted(e, c)
  }

  /** The entry is one that a scan takes for a node's, and it says of the node's kind, clusters and size what
      the record says. */
  ghost predicate Tells(ent: DirEntry, rec: Record) {
    && !Inert(ent) && ClusterOf(ent) == rec.cluster && (ent[11] / 0x10 % 2 == 1 <==> rec.isDir)
    && (!rec.isDir ==> Rd32(ent, 28) == rec.length)
  }

  ghost predicate Unmoving(n: int) { true }

  /** The nodes of `c` have the same short entries in `e` and `f`, and read back as themselves in both or in
      neither; folded behind `Unmoving`. */
  ghost predicate Stays(e: Entries, f: Entries, c: Index) {
    |e| <= |f| && forall n: int :: Unmoving(n) ==> forall b :: b in c ==>
      b < |e| && f[b] == e[b] && (Faithful(e, b, c[b]) <==> Faithful(f, b, c[b]))
  }

  lemma StaysAt(e: Entries, f: Entries, c: Index, b: nat)
    requires Stays(e, f, c) && b in c
    ensures b < |e| && f[b] == e[b] && (Faithful(e, b, c[b]) <==> Faithful(f, b, c[b]))
  {
    assert Unmoving(0);
  }

  lemma KeptExtended(e: Entries, c: Index, n: nat)
    requires WellKept(e, c)
    ensures WellKept(e + Blank(n), c) && LiveEnd(e + Blank(n)) == LiveEnd(e) && Stays(e, e + Blank(n), c)
    ensures ShortUnique(e) ==> ShortUnique(e + Blank(n))
  {
    HeldExtended(e, c, n);
    UsesExtended(e, e + Blank(n), []);
    assert Dotting(0);
    var f := e + Blank(n);
    forall b | b in c ensures b < |e| && f[b] == e[b] && (Faithful(e, b, c[b]) <==> Faithful(f, b, c[b])) {
      HeldGroup(e, c, b);
      FaithfulKept(e, f, b, c[b]);
    }
  }

  lemma VacantFree(e: Entries, c: Index, s: nat, n: nat)
    requires Holds(e, c) && Vacant(e, s, n)
    ensures forall b :: b in c ==> b < |e| && !(s <= b < s + n)
  {
    forall b | b in c ensures b < |e| && !(s <= b < s + n) {
      HeldGroup(e, c, b);
    }
  }

  lemma NoDotsSpelled(f: Entries, s: nat, name: seq<Byte>, long: bool, rec: Record)
    requires CName(name) && Spells(f, s, name, long, rec)
    ensures forall k :: s <= k < s + rec.slots ==> f[k][0] != DOT
  {
    var short, nt :| SpelledBy(f, s, name, long, rec, short, nt);
    forall k | s <= k < s + rec.slots ensures f[k][0] != DOT {
      if k == s + rec.slots - 1 {
        assert f[k][0] == f[k][..11][0];
      } else {
        assert FragmentAt(f, s, k - s, name, rec.slots - 1, Checksum(short));
      }
    }
  }

  /** Writing a name over free entries: one node more, every other entry as it was. */
  lemma KeptAdded(e: Entries, f: Entries, c: Index, s: nat, name: seq<Byte>, long: bool, rec: Record, at: nat)
    requires WellKept(e, c) && CName(name) && Spells(f, s, name, long, rec) && at + 1 == s + rec.slots
    requires Spliced(e, f, s, rec.slots) && Vacant(e, s, rec.slots) && (rec.isDir ==> rec.length == 0)
    ensures at !in c && WellKept(f, c[at := rec]) && Stays(e, f, c)
    ensures Faithful(f, at, rec) <==> Kept(name, long)
    ensures ShortUnique(e) && !Taken(e, f[at][..11]) ==> ShortUnique(f)
  {
    Added(e, f, c, s, name, long, rec, at);
    VacantFree(e, c, s, rec.slots);
    assert Dotted(f, c[at := rec]) by {
      assert Dotting(0);
      NoDotsSpelled(f, s, name, long, rec);
    }
    if ShortUnique(e) && !Taken(e, f[at][..11]) {
      assert at == s + rec.slots - 1;
      AddedUnique(e, f, c, s, name, long, rec);
    }
  }

  lemma StaysRemoved(e: Entries, f: Entries, c: Index, at: nat)
    requires Holds(e, c) && at in c && c[at].slots <= at + 1 && Spliced(e, f, at + 1 - c[at].slots, c[at].slots)
    requires LiveEnd(f) == LiveEnd(e)
    ensures Stays(e, f, c - {at})
  {
    HoldsIs(e, c);
    forall b | b in c && b != at ensures b < |e| && f[b] == e[b] && (Faithful(e, b, c[b]) <==> Faithful(f, b, c[b])) {
      RemovedSame(e, f, c, at, b);
      FaithfulKept(e, f, b, c[b]);
    }
  }

  /** Freeing the entries of a node: one node less. */
  lemma KeptRemoved(e: Entries, f: Entries, c: Index, at: nat)
    requires WellKept(e, c) && at in c && c[at].slots <= at + 1
    requires Spliced(e, f, at + 1 - c[at].slots, c[at].slots)
    requires forall k :: 0 <= k <= at < k + c[at].slots ==> f[k][0] == ENTRY_FREE
    ensures WellKept(f, c - {at}) && Stays(e, f, c - {at})
    ensures ShortUnique(e) ==> ShortUnique(f)
  {
    HeldRemoved(e, f, c, at);
    StaysRemoved(e, f, c, at);
    assert Dotted(f, c - {at}) by {
      assert Dotting(0);
    }
    if ShortUnique(e) {
      ErasedUnique(e, f, at, c[at].slots);
    }
  }

  /** A short entry rewritten behind its name. */
  lemma KeptPatched(e: Entries, f: Entries, c: Index, p: nat)
    requires WellKept(e, c) && Rewritten(e, f, p)
    ensures WellKept(f, c) && (ShortUnique(e) ==> ShortUnique(f))
  {
    HeldPatched(e, f, c, p);
    PatchedHead(e, f, p);
    assert Dotted(f, c) by {
      assert Dotting(0);
    }
    if ShortUnique(e) {
      PatchedUnique(e, f, p);
    }
  }

  lemma FewSlots(name: seq<Byte>, long: bool)
    requires |name| < NAME_MAX
    ensures 0 < SlotsOf(name, long) <= 11
  {
  }

  lemma NeedsOne(q: nat, n: nat, per: nat)
    requires 0 < q && Span(q - 1, per) < n <= 11 < per
    ensures q == 1
  {
  }

  lemma RunAtEnd(e: Entries, f: Entries, run: nat, count: nat, more: nat)
    requires run < count <= run + more && run <= |e| && f == e + Blank(more) && LiveEnd(f) == LiveEnd(e)
    requires |e| - run <= LiveEnd(e) && BlockedBefore(e, |e| - run, count) && FreeRun(e, |e| - run, run)
    ensures NoRun(e, count) && FirstRun(f, |e| - run, count) && Vacant(f, |e| - run, count)
  {
    BlockedNoRun(e, e, |e| - run, count);
    BlockedNoRun(e, f, |e| - run, count);
  }

  lemma RunThere(e: Entries, slot: nat, count: nat)
    requires RunAt(e, slot, count)
    ensures FirstRun(e, slot, count) && Vacant(e, slot, count)
  {
    BlockedNoRun(e, e, slot, count);
  }

  /** `dir_find_slots`: the first run of `count` free entries. The directory grows, by one zeroed cluster,
      only if it has no such run, and the search fails only if the volume then has no free cluster. */
  method FindSlots(fat: Fat, first: nat, count: nat, ghost cs: seq<nat>, ghost e: Entries, ghost c: Index)
    returns (slot: int, ghost ch: seq<nat>, ghost f: Entries)
    requires Reads(fat, first, cs, e) && WellKept(e, c) && 0 < count <= 11
    modifies fat, fat.dev
    ensures Reads(fat, first, ch, f) && cs <= ch && Quiet(fat.dev.g, old(View(fat, cs, true)), View(fat, ch, true), {})
    ensures FreeCount(fat.dev.fat) + |ch| == FreeCount(old(fat.dev.fat)) + |cs| && (old(fat.Exact()) ==> fat.Exact())
    ensures slot >= 0 ==> FirstRun(f, slot, count) && Vacant(f, slot, count)
    ensures f == e || (slot >= 0 && |ch| == |cs| + 1 && f == e + Blank(16 * fat.dev.g.spc) && NoRun(e, count))
    ensures slot < 0 ==> NoRun(e, count) && FreeCount(old(fat.dev.fat)) == 0
    ensures slot >= 0 && ch == cs ==> fat.dev.fat == old(fat.dev.fat)
    ensures !NoRun(e, count) ==>
      ch == cs && f == e && fat.dev.fat == old(fat.dev.fat) && fat.freeHint == old(fat.freeHint)
    ensures !NoRun(e, count) && old(!fat.dev.dirty) ==> !fat.dev.dirty
  {
    ghost var g, a := fat.dev.g, View(fat, cs, true);
    ch, f := cs, e;
    var perCluster := 16 * fat.dev.g.spc;
    var clusters := LengthOf(fat, first, cs, true);
    ghost var b := View(fat, cs, true);
    QuietTable(g, a, b);
    SpanIs(clusters, perCluster);
    var run, ok;
    slot, run := ScanSlots(fat, first, clusters * perCluster, count, cs, e, c);
    ghost var d := View(fat, cs, true);
    QuietTrans(g, a, b, d, {});
    if slot >= 0 {
      RunThere(e, slot, count);
      return;
    }
    ok, ch, f := Widen(fat, first, clusters, perCluster, run, count, cs, e, c);
    QuietTrans(g, a, d, View(fat, ch, true), {});
    slot := if ok then clusters * perCluster - run else -1;
  }

  /** The growth of a directory: one more cluster, all of it free entries. */
  method Widen(fat: Fat, first: nat, clusters: nat, perCluster: nat, run: nat, count: nat, ghost cs: seq<nat>,
      ghost e: Entries, ghost c: Index)
    returns (ok: bool, ghost ch: seq<nat>, ghost f: Entries)
    requires Reads(fat, first, cs, e) && WellKept(e, c) && run < count <= 11 && clusters == |cs|
    requires perCluster == 16 * fat.dev.g.spc
    requires run <= |e| && |e| - run <= LiveEnd(e) && BlockedBefore(e, |e| - run, count) && FreeRun(e, |e| - run, run)
    modifies fat, fat.dev
    ensures Reads(fat, first, ch, f) && cs <= ch && Quiet(fat.dev.g, old(View(fat, cs, true)), View(fat, ch, true), {})
    ensures FreeCount(fat.dev.fat) + |ch| == FreeCount(old(fat.dev.fat)) + |cs| && (old(fat.Exact()) ==> fat.Exact())
    ensures NoRun(e, count) && (ok <==> FreeCount(old(fat.dev.fat)) > 0)
    ensures if ok then |ch| == |cs| + 1 && f == e + Blank(perCluster) else ch == cs && f == e
    ensures ok ==> FirstRun(f, |e| - run, count) && Vacant(f, |e| - run, count)
  {
    ghost var g, d := fat.dev.g, View(fat, cs, true);
    var add := ClustersHolding(count - run, perCluster);
    NeedsOne(add, count - run, perCluster);
    var head, touched;
    ok, head, touched, ch := EnsureChain(fat, first, clusters + add, cs);
    ghost var now := View(fat, ch, true);
    QuietGrown(g, d, now);
    f := if ok then e + Blank(perCluster) else e;
    assert EntriesOf(g, now.image, ch) == f && InVolume(g, ch) by {
      ChainInVolume(g, fat.dev.fat, ch);
      WidenedEntries(g, d.image, now.image, cs, ch, ok);
    }
    assert NoRun(e, count) && FirstRun(e + Blank(perCluster), |e| - run, count)
      && Vacant(e + Blank(perCluster), |e| - run, count) by {
      KeptExtended(e, c, perCluster);
      RunAtEnd(e, e + Blank(perCluster), run, count, perCluster);
    }
    if !ok {
      CappedSame(d.table, cs);
    }
  }

  lemma WidenedEntries(g: Geometry, a: Image, b: Image, cs: seq<nat>, ch: seq<nat>, ok: bool)
    requires g.Valid() && Fits(g, a) && OwnSame(g, a, b, cs) && InVolume(g, cs) && InVolume(g, ch)
    requires if ok then cs <= ch && |ch| == |cs| + 1 && AddedZero(g, b, cs, ch) else ch == cs
    ensures EntriesOf(g, b, ch) == if ok then EntriesOf(g, a, cs) + Blank(16 * g.spc) else EntriesOf(g, a, cs)
  {
    if ok {
      assert Span(1, 16 * g.spc) == Span(0, 16 * g.spc) + 16 * g.spc;
      EntriesGrown(g, a, b, cs, ch);
    } else {
      EntriesSame(g, a, b, cs);
    }
  }

  /** Chooses the short name and finds room for the entries. */
  method Reserve(fat: Fat, first: nat, name: seq<Byte>, ghost cs: seq<nat>, ghost e: Entries, ghost c: Index)
    returns (ok: bool, slot: nat, short: seq<Byte>, nt: Byte, long: bool, ghost ch: seq<nat>, ghost f: Entries)
    requires Reads(fat, first, cs, e) && WellKept(e, c) && CName(name)
    modifies fat, fat.dev
    ensures Reads(fat, first, ch, f) && cs <= ch && Quiet(fat.dev.g, old(View(fat, cs, true)), View(fat, ch, true), {})
    ensures FreeCount(fat.dev.fat) + |ch| == FreeCount(old(fat.dev.fat)) + |cs| && (old(fat.Exact()) ==> fat.Exact())
    ensures WellKept(f, c) && Stays(e, f, c) && (ShortUnique(e) ==> ShortUnique(f))
    ensures long == Long(e, name)
    ensures if ok then Chosen(f, name, slot, short, nt, long) else NoPlace(e, name, FreeCount(old(fat.dev.fat)))
    ensures ok && ch == cs ==> fat.dev.fat == old(fat.dev.fat)
    ensures HasRoom(e, name) ==>
      ch == cs && fat.freeHint == old(fat.freeHint) && (old(!fat.dev.dirty) ==> !fat.dev.dirty)
    ensures HasRoom(e, name) && ok ==> GoesTo(e, name, slot)
  {
    ghost var g, a := fat.dev.g, View(fat, cs, true);
    assert Roomy(0);
    ch, f, slot := cs, e, 0;
    ok, short, nt, long := ChooseShort(fat, first, name, cs, e);
    StaysRefl(e, c);
    if !ok {
      return;
    }
    ghost var b := View(fat, cs, true);
    FewSlots(name, long);
    var found;
    found, ch, f := FindSlots(fat, first, SlotsOf(name, long), cs, e, c);
    QuietTrans(g, a, b, View(fat, ch, true), {});
    KeptExtended(e, c, 16 * g.spc);
    if found < 0 {
      ok := false;
      return;
    }
    slot := found;
    assert !Taken(f, short) by {
      UsesExtended(e, e + Blank(16 * g.spc), short);
    }
  }

  lemma StaysRefl(e: Entries, c: Index)
    requires Holds(e, c)
    ensures Stays(e, e, c)
  {
    forall b | b in c ensures b < |e| {
      HeldGroup(e, c, b);
    }
  }

  /** Entries that hold the first `n` fragments of a name, over what was `f`. */
  ghost predicate Fragments(f: Entries, h: Entries, slot: nat, n: nat, name: seq<Byte>, count: nat, sum: Byte) {
    && n <= count && Spliced(f, h, slot, count + 1)
    && forall j :: 0 <= j < n ==> FragmentAt(h, slot, j, name, count, sum)
  }

  lemma FragmentPut(f: Entries, h: Entries, slot: nat, n: nat, name: seq<Byte>, count: nat, sum: Byte, ent: DirEntry)
    requires Fragments(f, h, slot, n, name, count, sum) && n < count <= 10
    requires IsFragment(ent, name, count - n, n == 0, sum)
    ensures Fragments(f, h[slot + n := ent], slot, n + 1, name, count, sum) && !Pointing(ent)
  {
    FragmentsKept(h, h[slot + n := ent], slot, n, name, count, sum);
    assert FragmentAt(h[slot + n := ent], slot, n, name, count, sum);
  }

  /** The long-name part of `dir_write_entries`. */
  method WriteFragments(fat: Fat, first: nat, slot: nat, name: seq<Byte>, short: seq<Byte>, count: nat, ghost at: nat,
      ghost cs: seq<nat>, ghost f: Entries)
    returns (ghost h: Entries)
    requires Reads(fat, first, cs, f) && slot + count == at < |f| && count <= 10 && |short| == 11
    modifies fat.dev, fat`memoFirst, fat`memoIndex, fat`memoCluster, fat`linkSteps
    ensures Upto(fat, first, cs, h, at, old(View(fat, cs, true)), old(fat.At())) && (old(fat.Exact()) ==> fat.Exact())
    ensures Fragments(f, h, slot, count, name, count, Checksum(short))
  {
    ghost var g, a := fat.dev.g, View(fat, cs, true);
    QuietRefl(g, a, {});
    ghost var c := fat.At();
    WalkingNone(g, a.table, first, ClusterFor(g, slot), c);
    var sum := Checksum(short);
    h := f;
    for s := 0 to count
      invariant Upto(fat, first, cs, h, slot + s, a, c) && (old(fat.Exact()) ==> fat.Exact())
      invariant Fragments(f, h, slot, s, name, count, sum)
    {
      var ent := MakeFragment(name, count - s, s == 0, sum);
      FragmentPut(f, h, slot, s, name, count, sum, ent);
      PutNext(fat, first, slot + s, ent, cs, h, a, c);
      h := h[slot + s := ent];
    }
  }

  ghost predicate Scribed(n: int) { true }

  /** From `a` and `c` on, entries of the directory before `i` were written in order, none of which points; folded
      behind `Scribed`. */
  ghost predicate Upto(fat: Fat, first: nat, cs: seq<nat>, h: Entries, i: nat, a: Snap, c: Cursor)
    reads fat, fat.dev
  {
    && Reads(fat, first, cs, h) && fat.dev.fat == a.table
    && forall n: int :: Scribed(n) ==>
      && Quiet(fat.dev.g, a, View(fat, cs, true), {}) && a.chain == cs
      && Walking(fat.dev.g, a.table, first, ClusterFor(fat.dev.g, i), c, fat.At())
  }

  /** One entry more. */
  method PutNext(fat: Fat, first: nat, i: nat, ent: DirEntry, ghost cs: seq<nat>, ghost h: Entries, ghost a: Snap,
      ghost c: Cursor)
    requires Upto(fat, first, cs, h, i, a, c) && i < |h| && !Pointing(ent)
    modifies fat.dev, fat`memoFirst, fat`memoIndex, fat`memoCluster, fat`linkSteps
    ensures Upto(fat, first, cs, h[i := ent], i + 1, a, c) && (old(fat.Exact()) ==> fat.Exact())
  {
    assert Scribed(0);
    ghost var g, b, at := fat.dev.g, View(fat, cs, true), fat.At();
    PutEntry(fat, first, i, ent, cs, h);
    QuietTrans(g, a, b, View(fat, cs, true), {});
    WalkedOver(g, a.table, first, i, c, at, fat.At());
  }

  /** Entry `i` was looked up after those before it. */
  lemma WalkedOver(g: Geometry, t: Table, first: nat, i: nat, a: Cursor, b: Cursor, c: Cursor)
    requires g.Valid() && Walking(g, t, first, ClusterFor(g, i), a, b) && Looked(g, t, first, ClusterFor(g, i), b, c)
    ensures Walked(g, t, first, ClusterFor(g, i), a, c) && Walking(g, t, first, ClusterFor(g, i + 1), a, c)
  {
    WalkedOn(g, t, first, ClusterFor(g, i), ClusterFor(g, i), a, b, c);
    QuotMonotone(i / 16, (i + 1) / 16, g.spc);
    WalkingMore(g, t, first, ClusterFor(g, i), ClusterFor(g, i + 1), a, c);
  }

  lemma {:induction false} NameStarts(short: seq<Byte>, nt: Byte)
    requires |short| == 11 && ShortCharOk(short[0])
    ensures !Nameless(CString(NameOf(short, nt)))
  {
    var name := NameOf(short, nt);
    assert short[..8][0] == short[0];
    assert UntilSpace(short[..8])[0] == short[0];
    assert name != [] && name[0] != 0 && name[0] != DOT;
    assert CString(name)[0] == name[0];
  }

  /** The short entry written for a node is one that a scan takes for a node's. */
  lemma ShortTells(ent: DirEntry, short: seq<Byte>, nt: Byte, rec: Record)
    requires |short| == 11 && ShortCharOk(short[0]) && IsShortEntry(ent, short, nt, rec.isDir, rec.cluster, rec.length)
    ensures Tells(ent, rec) && (rec.cluster < 2 ==> !Pointing(ent))
  {
    ShortIsPlain(ent, short, nt, rec.isDir, rec.cluster, rec.length);
    NameStarts(short, nt);
    assert 0 in Step(FRESH, 0, ent).found;
  }

  /** What the finished entries are: the node's, over free ones. */
  lemma StoredKept(f: Entries, h: Entries, c: Index, slot: nat, short: seq<Byte>, nt: Byte, long: bool, node: Node,
      ent: DirEntry)
    requires WellKept(f, c) && Chosen(f, node.record.name, slot, short, nt, long) && Placed(node, slot, long)
    requires Fragments(f, h, slot, node.record.slots - 1, node.record.name, node.record.slots - 1, Checksum(short))
    requires IsShortEntry(ent, short, nt, node.record.isDir, node.record.cluster, node.record.length)
    requires Tells(ent, node.record)
    ensures node.at < |h| && Gained(f, h[node.at := ent], c, node, long)
  {
    assert Picked(0);
    var k, rec, at := h[node.at := ent], node.record, node.at;
    StoredSpells(f, h, slot, short, nt, long, node, ent);
    assert k[at] == ent && ent[..11] == short;
    KeptAdded(f, k, c, slot, rec.name, long, rec, at);
  }

  lemma StoredSpells(f: Entries, h: Entries, slot: nat, short: seq<Byte>, nt: Byte, long: bool, node: Node,
      ent: DirEntry)
    requires |short| == 11 && ShortCharOk(short[0]) && Placed(node, slot, long)
    requires !long ==>
      HasShort(node.record.name) && short == ShortBytes(node.record.name) && nt == ShortFlags(node.record.name)
    requires Fragments(f, h, slot, node.record.slots - 1, node.record.name, node.record.slots - 1, Checksum(short))
    requires IsShortEntry(ent, short, nt, node.record.isDir, node.record.cluster, node.record.length)
    ensures node.at < |h| && Spells(h[node.at := ent], slot, node.record.name, long, node.record)
    ensures Spliced(f, h[node.at := ent], slot, node.record.slots)
  {
    var k, rec := h[node.at := ent], node.record;
    FragmentsKept(h, k, slot, rec.slots - 1, rec.name, rec.slots - 1, Checksum(short));
    assert k[slot + rec.slots - 1] == ent;
    assert SpelledBy(k, slot, rec.name, long, rec, short, nt);
  }

  ghost predicate Inked(n: int) { true }

  /** The entries `h` hold the node besides those of `c`: it has the short entry its record asks for, it reads back
      if and only if its name is kept, every other node keeps its entries, and short names stay unique; folded
      behind `Inked`. */
  ghost predicate Gained(f: Entries, h: Entries, c: Index, node: Node, long: bool)
    requires CName(node.record.name)
  {
    forall n: int :: Inked(n) ==>
      && node.at < |h| && node.at !in c && WellKept(h, c[node.at := node.record]) && Stays(f, h, c)
      && Tells(h[node.at], node.record) && (Faithful(h, node.at, node.record) <==> Kept(node.record.name, long))
      && (ShortUnique(f) ==> ShortUnique(h))
  }

  /** `dir_write_entries`: the fragments, then the short entry. Only a node with clusters makes an entry
      that points anywhere, and that entry is written last. */
  method Store(fat: Fat, first: nat, slot: nat, short: seq<Byte>, nt: Byte, long: bool, node: Node, stamp: Stamp,
      ghost cs: seq<nat>, ghost f: Entries, ghost c: Index)
    returns (ghost h: Entries)
    requires Reads(fat, first, cs, f) && WellKept(f, c)
    requires Chosen(f, node.record.name, slot, short, nt, long) && Placed(node, slot, long)
    modifies fat.dev, fat`memoFirst, fat`memoIndex, fat`memoCluster, fat`linkSteps
    ensures Reads(fat, first, cs, h) && fat.dev.fat == old(fat.dev.fat) && (old(fat.Exact()) ==> fat.Exact())
    ensures Quiet(fat.dev.g, old(View(fat, cs, true)), View(fat, cs, true),
      if node.record.cluster < 2 then {} else {node.at})
    ensures QuietButLast(fat.dev.g, old(View(fat, cs, true)), View(fat, cs, true)) && |old(fat.dev.log)| < |fat.dev.log|
    ensures Walked(fat.dev.g, fat.dev.fat, first, ClusterFor(fat.dev.g, node.at), old(fat.At()), fat.At())
    ensures Gained(f, h, c, node, long)
  {
    ghost var g, a := fat.dev.g, View(fat, cs, true);
    var rec := node.record;
    FewSlots(rec.name, long);
    assert slot + rec.slots <= |f| && |short| == 11 && ShortCharOk(short[0]) by {
      assert Picked(0);
    }
    ghost var m := WriteFragments(fat, first, slot, rec.name, short, rec.slots - 1, node.at, cs, f);
    var ent := MakeShortEntry(short, nt, rec.isDir, rec.cluster, rec.length, stamp);
    ShortTells(ent, short, nt, rec);
    StoredKept(f, m, c, slot, short, nt, long, node, ent);
    PutLast(fat, first, node.at, ent, cs, m, a, old(fat.At()), rec.cluster);
    h := m[node.at := ent];
  }

  /** The entry that may point. */
  method PutLast(fat: Fat, first: nat, i: nat, ent: DirEntry, ghost cs: seq<nat>, ghost m: Entries, ghost a: Snap,
      ghost c: Cursor, ghost cluster: nat)
    requires Upto(fat, first, cs, m, i, a, c) && i < |m| && (cluster < 2 ==> !Pointing(ent))
    modifies fat.dev, fat`memoFirst, fat`memoIndex, fat`memoCluster, fat`linkSteps
    ensures Reads(fat, first, cs, m[i := ent]) && fat.dev.fat == old(fat.dev.fat) && (old(fat.Exact()) ==> fat.Exact())
    ensures Quiet(fat.dev.g, a, View(fat, cs, true), if cluster < 2 then {} else {i})
    ensures QuietButLast(fat.dev.g, a, View(fat, cs, true)) && |a.log| < |fat.dev.log|
    ensures Walked(fat.dev.g, fat.dev.fat, first, ClusterFor(fat.dev.g, i), c, fat.At())
  {
    assert Scribed(0);
    ghost var g, b, at := fat.dev.g, View(fat, cs, true), fat.At();
    PutEntry(fat, first, i, ent, cs, m);
    QuietThenLast(g, a, b, View(fat, cs, true));
    WalkedOver(g, fat.dev.fat, first, i, c, at, fat.At());
    LastPut(g, a, b, View(fat, cs, true), i, ent, cluster);
  }

  lemma LastPut(g: Geometry, a: Snap, b: Snap, c: Snap, at: nat, ent: DirEntry, cluster: nat)
    requires Quiet(g, a, b, {}) && Quiet(g, b, c, if Pointing(ent) then {at} else {}) && a.chain == b.chain
    requires cluster < 2 ==> !Pointing(ent)
    ensures Quiet(g, a, c, if cluster < 2 then {} else {at})
  {
    var loud := if cluster < 2 then {} else {at};
    QuietLouder(g, a, b, {}, loud);
    QuietLouder(g, b, c, if Pointing(ent) then {at} else {}, loud);
    QuietTrans(g, a, b, c, loud);
  }

  /** Entry `k` is where its index says and nowhere else: positions on the device tell entries apart. */
  lemma PositionInjective(g: Geometry, t: Table, cs: seq<nat>, i: nat, k: nat)
    requires g.Valid() && IsChain(t, cs) && InVolume(g, cs) && InFile(g, |cs|, i / 16) && InFile(g, |cs|, k / 16)
    ensures PositionOf(g, cs, i) == PositionOf(g, cs, k) <==> i == k
  {
    ChainAcyclic(t, cs);
    if PositionOf(g, cs, i) == PositionOf(g, cs, k) {
      LbaInjective(g, cs, i / 16, k / 16);
    }
  }

  ghost function Erased(ent: DirEntry): DirEntry {
    ent[0 := ENTRY_FREE]
  }

  ghost predicate Blotted(n: int) { true }

  /** `h` is `e` once the `slots` entries up to `at` are freed; folded behind `Blotted`. */
  ghost predicate FreedTo(e: Entries, h: Entries, at: nat, slots: nat) {
    forall n: int :: Blotted(n) ==> h == Vacating(e, at, slots)
  }

  ghost function Vacating(e: Entries, at: nat, slots: nat): Entries {
    seq(|e|, j requires 0 <= j < |e| => if at < j + slots && j <= at then Erased(e[j]) else e[j])
  }

  ghost predicate ErasedTo(e: Entries, h: Entries, start: nat, k: nat) {
    && start <= k <= |e| == |h|
    && forall j :: 0 <= j < |e| ==> h[j] == if start <= j < k then Erased(e[j]) else e[j]
  }

  /** Frees the entries from `start` to `at`. */
  method EraseRun(fat: Fat, first: nat, start: nat, at: nat, ghost cs: seq<nat>, ghost e: Entries)
    returns (ghost h: Entries)
    requires Reads(fat, first, cs, e) && start <= at < |e|
    modifies fat.dev, fat`memoFirst, fat`memoIndex, fat`memoCluster, fat`linkSteps
    ensures Reads(fat, first, cs, h) && fat.dev.fat == old(fat.dev.fat) && (old(fat.Exact()) ==> fat.Exact())
    ensures Quiet(fat.dev.g, old(View(fat, cs, true)), View(fat, cs, true), {}) && ErasedTo(e, h, start, at + 1)
    ensures old(!fat.dev.dirty) ==> !fat.dev.dirty
  {
    ghost var g, a := fat.dev.g, View(fat, cs, true);
    QuietRefl(g, a, {});
    h := e;
    var k := start;
    while k <= at
      invariant start <= k <= at + 1 && ErasedTo(e, h, start, k)
      invariant Reads(fat, first, cs, h) && fat.dev.fat == a.table && (old(fat.Exact()) ==> fat.Exact())
      invariant Quiet(g, a, View(fat, cs, true), {}) && (old(!fat.dev.dirty) ==> !fat.dev.dirty)
    {
      ghost var b := View(fat, cs, true);
      var found, ent, pos := Fetch(fat, first, k, cs, h);
      ghost var d := View(fat, cs, true);
      var w: DirEntry := ent[0 := ENTRY_FREE];
      PutAt(fat, first, pos, k, w, cs, h);
      QuietTrans(g, a, b, d, {});
      QuietTrans(g, a, d, View(fat, cs, true), {});
      h := h[k := w];
      k := k + 1;
    }
  }

  /** `dir_free_entries`: scans for the short entry and frees it together with the fragments before it. */
  method FreeEntries(fat: Fat, first: nat, at: nat, slots: nat, ghost cs: seq<nat>, ghost e: Entries, ghost c: Index)
    returns (ghost h: Entries)
    requires Reads(fat, first, cs, e) && WellKept(e, c) && at in c && c[at].slots == slots
    modifies fat.dev, fat`memoFirst, fat`memoIndex, fat`memoCluster, fat`linkSteps
    ensures Reads(fat, first, cs, h) && fat.dev.fat == old(fat.dev.fat) && (old(fat.Exact()) ==> fat.Exact())
    ensures Quiet(fat.dev.g, old(View(fat, cs, true)), View(fat, cs, true), {})
    ensures old(!fat.dev.dirty) ==> !fat.dev.dirty
    ensures WellKept(h, c - {at}) && Stays(e, h, c - {at}) && |h| == |e| && at < |h| && !Pointing(h[at])
    ensures FreedTo(e, h, at, slots)
    ensures ShortUnique(e) ==> ShortUnique(h)
  {
    ghost var g, a := fat.dev.g, View(fat, cs, true);
    HeldGroup(e, c, at);
    SeekEntry(fat, first, at, cs, e);
    ghost var d := View(fat, cs, true);
    h := EraseRun(fat, first, at + 1 - slots, at, cs, e);
    QuietTrans(g, a, d, View(fat, cs, true), {});
    ErasedNode(e, h, c, at);
  }

  lemma ErasedNode(e: Entries, h: Entries, c: Index, at: nat)
    requires WellKept(e, c) && at in c && c[at].slots <= at + 1 && at < |e|
    requires ErasedTo(e, h, at + 1 - c[at].slots, at + 1)
    ensures WellKept(h, c - {at}) && Stays(e, h, c - {at}) && |h| == |e| && !Pointing(h[at])
    ensures FreedTo(e, h, at, c[at].slots)
    ensures ShortUnique(e) ==> ShortUnique(h)
  {
    HeldGroup(e, c, at);
    KeptRemoved(e, h, c, at);
  }

  /** The scan for the short entry of a node, which is there before the end of the directory. */
  method SeekEntry(fat: Fat, first: nat, at: nat, ghost cs: seq<nat>, ghost e: Entries)
    requires Reads(fat, first, cs, e) && at < LiveEnd(e)
    modifies fat.dev, fat`memoFirst, fat`memoIndex, fat`memoCluster, fat`linkSteps
    ensures Reads(fat, first, cs, e) && fat.dev.fat == old(fat.dev.fat) && (old(fat.Exact()) ==> fat.Exact())
    ensures Quiet(fat.dev.g, old(View(fat, cs, true)), View(fat, cs, true), {})
    ensures old(!fat.dev.dirty) ==> !fat.dev.dirty
  {
    ghost var g, a := fat.dev.g, View(fat, cs, true);
    QuietRefl(g, a, {});
    var i, there := 0, false;
    while !there
      invariant 0 <= i <= at && Reads(fat, first, cs, e) && fat.dev.fat == a.table && (old(fat.Exact()) ==> fat.Exact())
      invariant Quiet(g, a, View(fat, cs, true), {}) && (old(!fat.dev.dirty) ==> !fat.dev.dirty)
      decreases at - i, !there
    {
      ghost var b := View(fat, cs, true);
      var found, ent, _ := Fetch(fat, first, i, cs, e);
      QuietTrans(g, a, b, View(fat, cs, true), {});
      if !found || ent[0] == ENTRY_END {
        assert false;
      }
      there := i == at;
      if !there {
        i := i + 1;
      }
    }
  }

  lemma PatchedStays(e: Entries, f: Entries, c: Index, p: nat)
    requires Holds(e, c) && Rewritten(e, f, p)
    ensures Stays(e, f, c - {p})
  {
    HeldPatchedReads(e, f, c, p);
    forall b | b in c ensures b < |e| {
      HeldGroup(e, c, b);
    }
  }

  /** What `dirent_update` leaves: the node's new fields under its old name. */
  lemma PatchedTells(e: Entries, c: Index, at: nat, ent: DirEntry, rec: Record)
    requires WellKept(e, c) && at in c && at < |e| && ent[..13] == e[at][..13]
    requires ClusterOf(ent) == rec.cluster && (!rec.isDir ==> Rd32(ent, 28) == rec.length)
    requires rec.isDir ==> rec.length == 0
    requires rec.name == c[at].name && rec.slots == c[at].slots && rec.isDir == c[at].isDir
    requires (e[at][11] / 0x10 % 2 == 1 <==> rec.isDir) && !Inert(e[at])
    ensures WellKept(e[at := ent], c[at := rec]) && Tells(ent, rec) && Stays(e, e[at := ent], c - {at})
    ensures Faithful(e, at, c[at]) ==> Faithful(e[at := ent], at, rec)
    ensures ShortUnique(e) ==> ShortUnique(e[at := ent])
  {
    HeldGroup(e, c, at);
    var f := e[at := ent];
    KeptPatched(e, f, c, at);
    PatchedHead(e, f, at);
    HeldSame(f, c, at, rec);
    assert Dotted(f, c[at := rec]) by {
      assert Dotting(0);
    }
    HeldPatchedReads(e, f, c, at);
    assert !Inert(ent) by {
      if Inert(ent) {
        PatchedInert(ent, e[at]);
      }
    }
    assert Fields(ent, rec.name, rec.slots) == rec;
    PatchedStays(e, f, c, at);
  }

  /** `dirent_update`: the node's first cluster, its size unless it is a directory, and the time. */
  method UpdateEntry(fat: Fat, first: nat, at: nat, rec: Record, stamp: Stamp, ghost cs: seq<nat>, ghost e: Entries,
      ghost c: Index)
    returns (ghost h: Entries)
    requires Reads(fat, first, cs, e) && WellKept(e, c) && at in c && Storable(rec)
    requires rec.name == c[at].name && rec.slots == c[at].slots && rec.isDir == c[at].isDir
    requires at < |e| && (e[at][11] / 0x10 % 2 == 1 <==> rec.isDir) && !Inert(e[at])
    modifies fat.dev, fat`memoFirst, fat`memoIndex, fat`memoCluster, fat`linkSteps
    ensures Reads(fat, first, cs, h) && fat.dev.fat == old(fat.dev.fat) && (old(fat.Exact()) ==> fat.Exact())
    ensures old(!fat.dev.dirty) ==>
      !fat.dev.dirty && fat.dev.log == old(fat.dev.log) + [Moment(fat.dev.sectors, fat.dev.disk)]
    ensures Quiet(fat.dev.g, old(View(fat, cs, true)), View(fat, cs, true), {at})
    ensures WellKept(h, c[at := rec]) && |h| == |e| && Tells(h[at], rec) && Stays(e, h, c - {at})
    ensures Faithful(e, at, c[at]) ==> Faithful(h, at, rec)
    ensures ShortUnique(e) ==> ShortUnique(h)
  {
    ghost var g, a := fat.dev.g, View(fat, cs, true);
    var found, ent, pos := Fetch(fat, first, at, cs, e);
    ghost var b := View(fat, cs, true);
    var w := PatchShort(ent, rec.isDir, rec.cluster, rec.length, stamp);
    PutAt(fat, first, pos, at, w, cs, e);
    h := e[at := w];
    QuietLouder(g, a, b, {}, {at});
    QuietLouder(g, b, View(fat, cs, true), if Pointing(w) then {at} else {}, {at});
    QuietTrans(g, a, b, View(fat, cs, true), {at});
    PatchedTells(e, c, at, w, rec);
  }

  predicate IsParentEntry(e: DirEntry) {
    e[0] == DOT && e[1] == DOT
  }

  lemma DotInert(e: Entries, c: Index, i: nat)
    requires WellKept(e, c) && i < |e| && e[i][0] == DOT
    ensures i !in c && !IsFragmentEntry(e[i]) && Inert(e[i])
  {
    assert Dotting(0);
    HoldsIs(e, c);
    HeldEnd(e, c);
    forall b | b in Slots(c) ensures !Covers(Slots(c), b, i) {
      GroupOf(e, Slots(c), b);
    }
    InertAt(e, Slots(c), i);
  }

  /** The second entry is ".." in both or in neither, and then the new one names `up`. */
  ghost predicate Reparented(e: Entries, h: Entries, up: nat) {
    && |h| == |e| && (1 < |e| ==> (IsParentEntry(h[1]) <==> IsParentEntry(e[1])))
    && (1 < |e| && IsParentEntry(e[1]) ==> ClusterOf(h[1]) == up)
  }

  /** A ".." that names another parent: no node changes. */
  lemma KeptReparented(e: Entries, c: Index, ent: DirEntry, up: nat)
    requires WellKept(e, c) && 1 < |e| && IsParentEntry(e[1]) && ent[..14] == e[1][..14] && ClusterOf(ent) == up
    ensures WellKept(e[1 := ent], c) && Stays(e, e[1 := ent], c) && !Pointing(ent) && Reparented(e, e[1 := ent], up)
    ensures ShortUnique(e) ==> ShortUnique(e[1 := ent])
  {
    assert ent[..13] == ent[..14][..13] && e[1][..13] == e[1][..14][..13];
    assert ent[0] == ent[..14][0] && ent[1] == ent[..14][1];
    DotInert(e, c, 1);
    KeptPatched(e, e[1 := ent], c, 1);
    PatchedHead(e, e[1 := ent], 1);
    PatchedInert(e[1], ent);
    PatchedStays(e, e[1 := ent], c, 1);
    assert c - {1} == c;
  }

  /** A directory that moved: its ".." takes the new parent's cluster. */
  method Reparent(fat: Fat, first: nat, up: nat, ghost cs: seq<nat>, ghost e: Entries, ghost c: Index)
    returns (ghost h: Entries)
    requires Reads(fat, first, cs, e) && WellKept(e, c) && up < WORD
    modifies fat.dev, fat`memoFirst, fat`memoIndex, fat`memoCluster, fat`linkSteps
    ensures Reads(fat, first, cs, h) && fat.dev.fat == old(fat.dev.fat) && (old(fat.Exact()) ==> fat.Exact())
    ensures Quiet(fat.dev.g, old(View(fat, cs, true)), View(fat, cs, true), {})
    ensures WellKept(h, c) && Stays(e, h, c)
    ensures ShortUnique(e) ==> ShortUnique(h)
    ensures Reparented(e, h, up)
  {
    ghost var g, a := fat.dev.g, View(fat, cs, true);
    h := e;
    StaysRefl(e, c);
    var found, ent, pos := Fetch(fat, first, 1, cs, e);
    if found && ent[0] == DOT && ent[1] == DOT {
      var w := PutFields(ent, up, Rd32(ent, 28));
      KeptReparented(e, c, w, up);
      ghost var b := View(fat, cs, true);
      PutAt(fat, first, pos, 1, w, cs, e);
      QuietTrans(g, a, b, View(fat, cs, true), {});
      h := e[1 := w];
    }
  }
}
