/** What a machine that stops at some moment leaves on the device.

    A moment is safe when the directories on the device, read through the table on the device, form a
    forest: every entry that points at a cluster points at the head of a chain that ends properly, and no
    two entries share a cluster. The table on the device may lag behind the one in memory: `SafeAt` says
    that it lags harmlessly (kernel/fat32.c:860-872). */
module CrashSafety {
  import opened Bytes
  import opened Geometry
  import opened Chains
  import opened FatCache
  import opened ClusterData
  import opened Evolution
  import opened Allocation
  import opened Growth
  import opened FileBytes
  import opened LongNames
  import opened Layout
  import opened Edits
  import opened DirectoryIo
  import opened Directory
  import opened Entering
  import opened Ownership
  import opened World

  // Predicates quantified over one of these stay folded in a proof until it mentions that token.
  ghost predicate Imagined(n: int) { true }
  ghost predicate Witnessed(n: int) { true }
  ghost predicate Pictured(n: int) { true }
  ghost predicate Trailed(n: int) { true }
  ghost predicate Toned(n: int) { true }

  /** The directory `r.dir`, found by the chains `w`, has an entry at `r.at` that points at a cluster. */
  ghost predicate PointsAt(g: Geometry, im: Image, w: Chained, r: Ref)
    requires g.Valid() && Fits(g, im)
  {
    r.at < |DirEntries(g, im, w, r.dir)| && Pointing(DirEntries(g, im, w, r.dir)[r.at])
  }

  ghost function Target(g: Geometry, im: Image, w: Chained, r: Ref): DirEntry
    requires g.Valid() && Fits(g, im) && PointsAt(g, im, w, r)
  {
    DirEntries(g, im, w, r.dir)[r.at]
  }

  ghost predicate IsDirEntry(e: DirEntry) {
    e[11] / 0x10 % 2 == 1
  }

  /** An entry leads to the chain that `w` gives it. */
  ghost predicate Leads(w: Chained, r: Ref, e: DirEntry) {
    if IsDirEntry(e) then OfDir(ClusterOf(e)) in w else OfFile(r) in w && Headed(w[OfFile(r)], ClusterOf(e))
  }

  ghost predicate SafeFacts(g: Geometry, skip: set<Ref>, m: Moment, w: Chained)
    requires g.Valid() && Fits(g, m.image)
  {
    && (forall d :: OfDir(d) in w ==> Headed(w[OfDir(d)], d))
    && (forall r :: PointsAt(g, m.image, w, r) && r !in skip ==> Leads(w, r, Target(g, m.image, w, r)))
    && (forall r, q :: PointsDir(g, skip, m.image, w, r) && PointsDir(g, skip, m.image, w, q) ==>
          (ClusterOf(Target(g, m.image, w, r)) == ClusterOf(Target(g, m.image, w, q)) ==> r == q))
  }

  ghost predicate PointsDir(g: Geometry, skip: set<Ref>, im: Image, w: Chained, r: Ref)
    requires g.Valid() && Fits(g, im)
  {
    PointsAt(g, im, w, r) && r !in skip && IsDirEntry(Target(g, im, w, r))
  }

  /** The chains `w` show that the moment is safe, leaving the entries in `skip` out of account. */
  ghost predicate SafeBy(g: Geometry, skip: set<Ref>, m: Moment, w: Chained) {
    && g.Valid() && Fits(g, m.image) && |m.table| == g.Limit() && Forest(m.table, w)
    && forall n: int :: Witnessed(n) ==> SafeFacts(g, skip, m, w)
  }

  /** A safe moment: the directories `dirs` and all that can be reached from them form a forest. */
  ghost predicate CrashSafe(g: Geometry, dirs: set<nat>, skip: set<Ref>, m: Moment) {
    forall n: int :: Imagined(n) ==> exists w :: SafeBy(g, skip, m, w) && forall d :: d in dirs ==> OfDir(d) in w
  }

  /** What the table on the device shows: of each directory a first part of its chain, of each file that
      has clusters a chain from its first one. */
  ghost predicate Lags(s: State, skip: set<Ref>, w: Chained) {
    forall n: int :: Trailed(n) ==> LagsFacts(s, skip, w)
  }

  ghost predicate LagsFacts(s: State, skip: set<Ref>, w: Chained) {
    && (forall d :: OfDir(d) in w <==> d in s.tree)
    && (forall d :: d in s.tree ==> OfDir(d) in s.chains && w[OfDir(d)] <= s.chains[OfDir(d)])
    && (forall r :: Has(s, r) && r !in skip ==> Reaches(w, r, Rec(s, r)))
  }

  ghost predicate Reaches(w: Chained, r: Ref, rec: Record) {
    !rec.isDir && 2 <= rec.cluster ==> OfFile(r) in w && Headed(w[OfFile(r)], rec.cluster)
  }

  ghost predicate SafeAt(g: Geometry, s: State, skip: set<Ref>, m: Moment) {
    forall n: int :: Pictured(n) ==> exists w :: Lags(s, skip, w) && SafeBy(g, skip, m, w)
  }

  /** What points in the one moment points at the same in the other. */
  ghost predicate Follows(g: Geometry, skip: set<Ref>, im: Image, w: Chained, skip': set<Ref>, im': Image, w': Chained,
      r: Ref)
    requires g.Valid() && Fits(g, im) && Fits(g, im')
  {
    PointsAt(g, im', w', r) && r !in skip' ==>
      r !in skip && PointsAt(g, im, w, r) && Target(g, im', w', r) == Target(g, im, w, r)
        && Leads(w', r, Target(g, im, w, r))
  }

  /** Safety carries over to chains and images in which nothing points that did not before. */
  lemma SafeTransfer(g: Geometry, skip: set<Ref>, m: Moment, w: Chained, skip': set<Ref>, m': Moment, w': Chained)
    requires SafeBy(g, skip, m, w) && Fits(g, m'.image) && |m'.table| == g.Limit() && Forest(m'.table, w')
    requires forall d :: OfDir(d) in w' ==> Headed(w'[OfDir(d)], d)
    requires forall r :: Follows(g, skip, m.image, w, skip', m'.image, w', r)
    ensures SafeBy(g, skip', m', w')
  {
    assert Witnessed(0);
    forall p, q | PointsDir(g, skip', m'.image, w', p) && PointsDir(g, skip', m'.image, w', q)
      && ClusterOf(Target(g, m'.image, w', p)) == ClusterOf(Target(g, m'.image, w', q)) ensures p == q
    {
      assert Follows(g, skip, m.image, w, skip', m'.image, w', p)
        && Follows(g, skip, m.image, w, skip', m'.image, w', q);
      assert PointsDir(g, skip, m.image, w, p) && PointsDir(g, skip, m.image, w, q);
    }
    forall r | PointsAt(g, m'.image, w', r) && r !in skip' ensures Leads(w', r, Target(g, m'.image, w', r)) {
      assert Follows(g, skip, m.image, w, skip', m'.image, w', r);
    }
  }

  lemma SafeLeads(g: Geometry, skip: set<Ref>, m: Moment, w: Chained, r: Ref)
    requires SafeBy(g, skip, m, w) && PointsAt(g, m.image, w, r) && r !in skip
    ensures Leads(w, r, Target(g, m.image, w, r))
  {
    assert Witnessed(0);
  }

  lemma SafeHeads(g: Geometry, skip: set<Ref>, m: Moment, w: Chained)
    requires SafeBy(g, skip, m, w)
    ensures forall d :: OfDir(d) in w ==> Headed(w[OfDir(d)], d)
  {
    assert Witnessed(0);
  }

  lemma FewerAsked(g: Geometry, skip: set<Ref>, skip': set<Ref>, m: Moment, w: Chained)
    requires SafeBy(g, skip, m, w) && skip <= skip'
    ensures SafeBy(g, skip', m, w)
  {
    SafeHeads(g, skip, m, w);
    forall r ensures Follows(g, skip, m.image, w, skip', m.image, w, r) {
      if PointsAt(g, m.image, w, r) && r !in skip' {
        SafeLeads(g, skip, m, w, r);
      }
    }
    SafeTransfer(g, skip, m, w, skip', m, w);
  }

  lemma SafeIsCrashSafe(g: Geometry, s: State, skip: set<Ref>, m: Moment, dirs: set<nat>, skip': set<Ref>)
    requires SafeAt(g, s, skip, m) && dirs <= s.tree.Keys && skip <= skip'
    ensures CrashSafe(g, dirs, skip', m)
  {
    assert Pictured(0);
    var w :| Lags(s, skip, w) && SafeBy(g, skip, m, w);
    assert Trailed(0);
    FewerAsked(g, skip, skip', m, w);
    assert forall d :: d in dirs ==> OfDir(d) in w;
  }

  // ---------------------------------------------------------------- entries that point are nodes

  lemma PointingIsNode(e: Entries, c: Index, i: nat)
    requires Holds(e, c) && i < |e| && Pointing(e[i])
    ensures i in c
  {
    HoldsIs(e, c);
    HeldEnd(e, c);
    if i !in c {
      forall b | b in Slots(c) ensures !Covers(Slots(c), b, i) {
        GroupOf(e, Slots(c), b);
      }
      InertAt(e, Slots(c), i);
    }
  }

  /** A first part of a directory's chain shows a first part of its entries. */
  lemma PrefixEntries(g: Geometry, im: Image, cs: seq<nat>, ch: seq<nat>, i: nat)
    requires g.Valid() && Fits(g, im) && InVolume(g, ch) && cs <= ch
    ensures InVolume(g, cs) && |EntriesOf(g, im, cs)| <= |EntriesOf(g, im, ch)|
    ensures i < |EntriesOf(g, im, cs)| ==> EntriesOf(g, im, ch)[i] == EntriesOf(g, im, cs)[i]
  {
    PrefixInVolume(g, cs, ch);
    EntriesFewer(g, im, im, cs, ch);
    EntriesAt(g, im, cs, i);
    EntriesAt(g, im, ch, i);
    if i < |EntriesOf(g, im, cs)| {
      EntryPrefix(g, im, cs, ch, i);
    }
  }

  lemma ShownEntry(g: Geometry, t: Table, im: Image, s: State, skip: set<Ref>, w: Chained, r: Ref)
    requires g.Valid() && Fits(g, im) && |t| == g.Limit() && Forest(t, s.chains) && Lags(s, skip, w)
    requires r.at < |DirEntries(g, im, w, r.dir)|
    ensures r.dir in s.tree && OfDir(r.dir) in s.chains && r.at < |DirEntries(g, im, s.chains, r.dir)|
    ensures DirEntries(g, im, s.chains, r.dir)[r.at] == DirEntries(g, im, w, r.dir)[r.at]
  {
    assert Trailed(0);
    ForestOwns(t, s.chains, OfDir(r.dir));
    ChainInVolume(g, t, s.chains[OfDir(r.dir)]);
    PrefixEntries(g, im, w[OfDir(r.dir)], s.chains[OfDir(r.dir)], r.at);
  }

  /** The state agrees with the device: what `Mild` and the steps of the tree start from. */
  ghost predicate Settled(g: Geometry, s: State, skip: set<Ref>, t: Table, im: Image) {
    && g.Valid() && Fits(g, im) && |t| == g.Limit() && Forest(t, s.chains)
    && Shape(g, s, skip) && Entered(g, im, s, skip)
  }

  /** An entry that points, shown by a table that lags, is a node and says what the node's record says. */
  lemma PointsAtNode(g: Geometry, s: State, skip: set<Ref>, t: Table, im: Image, w: Chained, r: Ref, skip': set<Ref>)
    requires Settled(g, s, skip, t, im) && Lags(s, skip', w) && PointsAt(g, im, w, r) && r !in skip
    ensures Has(s, r) && NodeOk(g, s, r) && Tells(Target(g, im, w, r), Rec(s, r)) && 2 <= Rec(s, r).cluster
    ensures PointsAt(g, im, s.chains, r) && Target(g, im, s.chains, r) == Target(g, im, w, r)
  {
    ShownEntry(g, t, im, s, skip', w, r);
    EntriesKept(g, im, s, skip, r.dir);
    PointingIsNode(DirEntries(g, im, s.chains, r.dir), s.tree[r.dir], r.at);
    NodeOf(g, s, skip, r);
    EntryTells(g, im, s, skip, r);
  }

  /** Between operations the table every reader sees is itself safe to have on the device. */
  lemma SettledSafe(g: Geometry, s: State, skip: set<Ref>, t: Table, im: Image)
    requires Settled(g, s, skip, t, im)
    ensures Lags(s, skip, s.chains) && SafeBy(g, skip, Moment(im, t), s.chains) && SafeAt(g, s, skip, Moment(im, t))
  {
    assert Lags(s, skip, s.chains) by {
      assert Shaped(0);
      forall r | Has(s, r) && r !in skip ensures Reaches(s.chains, r, Rec(s, r)) {
        assert NodeOk(g, s, r);
      }
      forall d | OfDir(d) in s.chains ensures d in s.tree {
        assert OwnerOk(s, skip, OfDir(d));
      }
    }
    ChainsLead(g, s, skip, t, im, im, t, s.chains, skip);
  }

  // ---------------------------------------------------------------- moments

  /** `v` gives every directory its chain and every file a chain with its head. */
  ghost predicate Rehung(chains: Chained, v: Chained) {
    && v.Keys == chains.Keys
    && (forall d :: OfDir(d) in chains ==> v[OfDir(d)] == chains[OfDir(d)])
    && (forall r :: OfFile(r) in chains ==> SameHead(chains[OfFile(r)], v[OfFile(r)]))
  }

  ghost function Loud(skip: set<Ref>, d: nat): set<nat> {
    set r | r in skip && r.dir == d :: r.at
  }

  /** No entry of any directory points anywhere new, those in `skip` aside. */
  ghost predicate Hushed(g: Geometry, s: State, skip: set<Ref>, a: Image, b: Image) {
    && g.Valid() && Fits(g, a) && Fits(g, b)
    && forall n: int :: Toned(n) ==> forall d :: d in s.tree ==>
      Mutes(DirEntries(g, a, s.chains, d), DirEntries(g, b, s.chains, d), Loud(skip, d))
  }

  lemma HushedAt(g: Geometry, s: State, skip: set<Ref>, a: Image, b: Image, r: Ref)
    requires Hushed(g, s, skip, a, b) && r.dir in s.tree && PointsAt(g, b, s.chains, r) && r !in skip
    ensures PointsAt(g, a, s.chains, r) && Target(g, a, s.chains, r) == Target(g, b, s.chains, r)
  {
    assert Toned(0);
    assert forall q :: q in skip && q.dir == r.dir && q.at == r.at ==> q == r;
  }

  /** A table that gives every node its head is safe, whatever else the images differ in. */
  lemma ChainsLead(g: Geometry, s: State, skip: set<Ref>, t: Table, a: Image, b: Image, u: Table, v: Chained,
      skip': set<Ref>)
    requires Settled(g, s, skip, t, a) && skip <= skip' && Hushed(g, s, skip', a, b) && |u| == g.Limit() && Forest(u, v)
    requires Rehung(s.chains, v)
    ensures Lags(s, skip', v) && SafeBy(g, skip', Moment(b, u), v)
  {
    var m := Moment(b, u);
    RehungLags(g, s, skip, v, skip');
    forall r | PointsAt(g, b, v, r) && r !in skip' ensures PointsAt(g, a, s.chains, r)
      && Target(g, b, v, r) == Target(g, a, s.chains, r) {
      ShownEntry(g, t, b, s, skip', v, r);
      HushedAt(g, s, skip', a, b, r);
    }
    forall r | PointsAt(g, b, v, r) && r !in skip' ensures Leads(v, r, Target(g, b, v, r)) {
      NodeLeads(g, s, skip, t, a, v, r);
    }
    forall r, q | PointsDir(g, skip', b, v, r) && PointsDir(g, skip', b, v, q)
      && ClusterOf(Target(g, b, v, r)) == ClusterOf(Target(g, b, v, q)) ensures r == q
    {
      OneSub(g, s, skip, t, a, r, q);
    }
    assert forall d :: OfDir(d) in v ==> Headed(v[OfDir(d)], d) by {
      assert Shaped(0);
      forall d | OfDir(d) in v ensures Headed(v[OfDir(d)], d) {
        assert OwnerOk(s, skip, OfDir(d));
      }
    }
    assert SafeFacts(g, skip', m, v);
  }

  lemma RehungLags(g: Geometry, s: State, skip: set<Ref>, v: Chained, skip': set<Ref>)
    requires Shape(g, s, skip) && skip <= skip' && Rehung(s.chains, v)
    ensures Lags(s, skip', v)
  {
    assert Shaped(0);
    forall r | Has(s, r) && r !in skip' ensures Reaches(v, r, Rec(s, r)) {
      assert NodeOk(g, s, r);
    }
    forall d | OfDir(d) in v ensures d in s.tree {
      assert OwnerOk(s, skip, OfDir(d));
    }
  }

  lemma NodeLeads(g: Geometry, s: State, skip: set<Ref>, t: Table, a: Image, v: Chained, r: Ref)
    requires Settled(g, s, skip, t, a) && PointsAt(g, a, s.chains, r) && r !in skip && Rehung(s.chains, v)
    ensures Leads(v, r, Target(g, a, s.chains, r))
  {
    RehungRefl(s.chains);
    RehungLags(g, s, skip, s.chains, skip);
    PointsAtNode(g, s, skip, t, a, s.chains, r, skip);
    if Rec(s, r).isDir {
      DirOf(g, s, skip, Rec(s, r).cluster);
    }
  }

  lemma RehungRefl(chains: Chained)
    ensures Rehung(chains, chains)
  {
  }

  lemma OneSub(g: Geometry, s: State, skip: set<Ref>, t: Table, a: Image, r: Ref, q: Ref)
    requires Settled(g, s, skip, t, a) && PointsDir(g, skip, a, s.chains, r) && PointsDir(g, skip, a, s.chains, q)
    requires ClusterOf(Target(g, a, s.chains, r)) == ClusterOf(Target(g, a, s.chains, q))
    ensures r == q
  {
    RehungRefl(s.chains);
    RehungLags(g, s, skip, s.chains, skip);
    PointsAtNode(g, s, skip, t, a, s.chains, r, skip);
    PointsAtNode(g, s, skip, t, a, s.chains, q, skip);
    assert Shaped(0);
    assert IsSub(s, skip, r) && IsSub(s, skip, q);
  }

  /** The table on the device has not changed, and no entry points anywhere new. */
  lemma DiskStays(g: Geometry, s: State, skip: set<Ref>, t: Table, a: Image, b: Image, disk: Table, skip': set<Ref>)
    requires Settled(g, s, skip, t, a) && skip <= skip' && Hushed(g, s, skip', a, b)
    requires SafeAt(g, s, skip', Moment(a, disk))
    ensures SafeAt(g, s, skip', Moment(b, disk))
  {
    assert Pictured(0);
    var w :| Lags(s, skip', w) && SafeBy(g, skip', Moment(a, disk), w);
    SafeHeads(g, skip', Moment(a, disk), w);
    forall r ensures Follows(g, skip', a, w, skip', b, w, r) {
      if PointsAt(g, b, w, r) && r !in skip' {
        ShownEntry(g, t, b, s, skip', w, r);
        HushedAt(g, s, skip', a, b, r);
        SameLength(g, a, b, w, r.dir);
        ShownEntry(g, t, a, s, skip', w, r);
        SafeLeads(g, skip', Moment(a, disk), w, r);
      }
    }
    SafeTransfer(g, skip', Moment(a, disk), w, skip', Moment(b, disk), w);
  }

  lemma SameLength(g: Geometry, a: Image, b: Image, w: Chained, d: nat)
    requires g.Valid() && Fits(g, a) && Fits(g, b)
    ensures |DirEntries(g, a, w, d)| == |DirEntries(g, b, w, d)|
  {
  }

  /** A moment of work that started at `a` and shows no entry and no chain it should not. */
  ghost predicate Mild(g: Geometry, s: State, skip: set<Ref>, a: Snap, m: Moment) {
    && Hushed(g, s, skip, a.image, m.image)
    && (m.table == a.disk || (|m.table| == g.Limit() && exists v :: Rehung(s.chains, v) && Forest(m.table, v)))
  }

  /** The main lemma on moments: mild ones are safe. */
  lemma MildSafe(g: Geometry, s: State, skip: set<Ref>, a: Snap, m: Moment, skip': set<Ref>)
    requires Settled(g, s, skip, a.table, a.image) && skip <= skip' && SafeAt(g, s, skip', Moment(a.image, a.disk))
    requires Mild(g, s, skip', a, m)
    ensures SafeAt(g, s, skip', m)
  {
    if m.table == a.disk {
      DiskStays(g, s, skip, a.table, a.image, m.image, a.disk, skip');
    } else {
      var v :| Rehung(s.chains, v) && Forest(m.table, v);
      ChainsLead(g, s, skip, a.table, a.image, m.image, m.table, v, skip');
    }
  }

  // ---------------------------------------------------------------- moments that are not safe

  /** Whoever reads directory `d` through the table on the device follows the chain it has there. */
  lemma OnlyReading(g: Geometry, m: Moment, w: Chained, v: Chained, r: Ref)
    requires SafeBy(g, {}, m, w) && OfDir(r.dir) in w && Forest(m.table, v) && OfDir(r.dir) in v
    requires Headed(v[OfDir(r.dir)], r.dir)
    requires PointsAt(g, m.image, v, r)
    ensures PointsAt(g, m.image, w, r) && Target(g, m.image, w, r) == Target(g, m.image, v, r)
    ensures Leads(w, r, Target(g, m.image, v, r))
  {
    assert Witnessed(0);
    ForestOwns(m.table, w, OfDir(r.dir));
    ForestOwns(m.table, v, OfDir(r.dir));
    ChainUnique(m.table, w[OfDir(r.dir)], v[OfDir(r.dir)]);
  }

  /** An entry whose first cluster is free in the table on the device is not safe. */
  lemma FreeHeadUnsafe(g: Geometry, dirs: set<nat>, m: Moment, v: Chained, r: Ref)
    requires g.Valid() && Fits(g, m.image) && r.dir in dirs && Forest(m.table, v) && OfDir(r.dir) in v
    requires Headed(v[OfDir(r.dir)], r.dir)
    requires PointsAt(g, m.image, v, r)
    requires var c := ClusterOf(Target(g, m.image, v, r)); c < |m.table| && m.table[c] == 0
    ensures !CrashSafe(g, dirs, {}, m)
  {
    if CrashSafe(g, dirs, {}, m) {
      assert Imagined(0);
      var w :| SafeBy(g, {}, m, w) && forall d :: d in dirs ==> OfDir(d) in w;
      OnlyReading(g, m, w, v, r);
      var e := Target(g, m.image, v, r);
      var o := if IsDirEntry(e) then OfDir(ClusterOf(e)) else OfFile(r);
      assert Headed(w[o], ClusterOf(e)) by {
        assert Witnessed(0);
      }
      ForestOwns(m.table, w, o);
      ChainNonZero(m.table, w[o]);
    }
  }

  /** In a safe moment only one entry points at a cluster. */
  lemma OnePointsAt(g: Geometry, m: Moment, w: Chained, r: Ref, q: Ref)
    requires SafeBy(g, {}, m, w) && PointsAt(g, m.image, w, r) && PointsAt(g, m.image, w, q)
    requires ClusterOf(Target(g, m.image, w, r)) == ClusterOf(Target(g, m.image, w, q))
    requires IsDirEntry(Target(g, m.image, w, r)) == IsDirEntry(Target(g, m.image, w, q))
    ensures r == q
  {
    assert Witnessed(0);
    if IsDirEntry(Target(g, m.image, w, r)) {
      assert PointsDir(g, {}, m.image, w, r) && PointsDir(g, {}, m.image, w, q);
    } else if r != q {
      assert Leads(w, r, Target(g, m.image, w, r)) && Leads(w, q, Target(g, m.image, w, q));
      ForestApart(m.table, w, OfFile(r), OfFile(q));
      HeadsDiffer(w[OfFile(r)], w[OfFile(q)]);
    }
  }

  lemma HeadsDiffer(a: seq<nat>, b: seq<nat>)
    requires a != [] && b != [] && Disjoint(a, b)
    ensures a[0] != b[0]
  {
    assert a[0] in a && b[0] in b;
  }

  /** Two entries that point at one cluster are not safe. */
  lemma SharedUnsafe(g: Geometry, dirs: set<nat>, m: Moment, v: Chained, r: Ref, q: Ref)
    requires g.Valid() && Fits(g, m.image) && Forest(m.table, v) && r != q && r.dir in dirs && q.dir in dirs
    requires OfDir(r.dir) in v && Headed(v[OfDir(r.dir)], r.dir) && OfDir(q.dir) in v && Headed(v[OfDir(q.dir)], q.dir)
    requires PointsAt(g, m.image, v, r) && PointsAt(g, m.image, v, q)
    requires ClusterOf(Target(g, m.image, v, r)) == ClusterOf(Target(g, m.image, v, q))
    requires IsDirEntry(Target(g, m.image, v, r)) == IsDirEntry(Target(g, m.image, v, q))
    ensures !CrashSafe(g, dirs, {}, m)
  {
    if CrashSafe(g, dirs, {}, m) {
      assert Imagined(0);
      var w :| SafeBy(g, {}, m, w) && forall d :: d in dirs ==> OfDir(d) in w;
      OnlyReading(g, m, w, v, r);
      OnlyReading(g, m, w, v, q);
      OnePointsAt(g, m, w, r, q);
    }
  }

  /** The entry of a node with clusters points at them. */
  lemma NodePoints(g: Geometry, s: State, skip: set<Ref>, t: Table, im: Image, r: Ref, rec: Record)
    requires Settled(g, s, skip, t, im) && Has(s, r) && Told(g, im, s.chains, r, rec) && 2 <= rec.cluster
    ensures PointsAt(g, im, s.chains, r) && ClusterOf(Target(g, im, s.chains, r)) == rec.cluster
    ensures IsDirEntry(Target(g, im, s.chains, r)) <==> rec.isDir
  {
    assert Recounted(0);
    EntriesKept(g, im, s, skip, r.dir);
    HeldGroup(DirEntries(g, im, s.chains, r.dir), s.tree[r.dir], r.at);
  }
}
