/** What an operation leaves as it was: every node it does not name keeps its record, its bytes and its
    reading; and when the whole volume would be read back by a remount as it stands in memory. */
module Keeping {
  import opened Bytes
  import opened Geometry
  import opened Chains
  import opened FatCache
  import opened ClusterData
  import opened Evolution
  import opened Allocation
  import opened Growth
  import opened FileBytes
  import opened LongNames
  import opened Layout
  import opened Edits
  import opened DirectoryIo
  import opened Directory
  import opened Entering
  import opened Ownership
  import opened World

  // Predicates quantified over one of these stay folded in a proof until it mentions that token.
  ghost predicate Conveyed(n: int) { true }
  ghost predicate Singled(n: int) { true }
  ghost predicate Mirrored(n: int) { true }
  ghost predicate Paced(n: int) { true }

  /** The entries of the node at `r` read back as the node. */
  ghost predicate ReadsBack(g: Geometry, im: Image, s: State, r: Ref)
    requires g.Valid() && Fits(g, im) && Has(s, r)
  {
    Faithful(DirEntries(g, im, s.chains, r.dir), r.at, Rec(s, r))
  }

  /** A remount would read exactly the nodes there are; folded behind `Mirrored`. */
  ghost predicate Synced(g: Geometry, im: Image, s: State)
    requires g.Valid() && Fits(g, im)
  {
    forall n: int :: Mirrored(n) ==> forall r :: Has(s, r) ==> ReadsBack(g, im, s, r)
  }

  /** That is: the scan of every directory on the device finds the nodes that directory has in memory. */
  lemma SyncedIs(g: Geometry, im: Image, s: State, skip: set<Ref>)
    requires Entered(g, im, s, skip)
    ensures Synced(g, im, s) <==> forall d :: d in s.tree ==> ReadDir(DirEntries(g, im, s.chains, d)) == s.tree[d]
  {
    assert Mirrored(0);
    forall d | d in s.tree
      ensures ReadDir(DirEntries(g, im, s.chains, d)) == s.tree[d] <==>
        forall at :: at in s.tree[d] ==> Faithful(DirEntries(g, im, s.chains, d), at, s.tree[d][at])
    {
      EntriesKept(g, im, s, skip, d);
      HeldAgrees(DirEntries(g, im, s.chains, d), s.tree[d]);
      RemountsIs(DirEntries(g, im, s.chains, d), s.tree[d]);
    }
    if forall d :: d in s.tree ==> ReadDir(DirEntries(g, im, s.chains, d)) == s.tree[d] {
      forall r | Has(s, r) ensures ReadsBack(g, im, s, r) {
      }
    }
    if Synced(g, im, s) {
      forall d | d in s.tree ensures ReadDir(DirEntries(g, im, s.chains, d)) == s.tree[d] {
        forall at | at in s.tree[d] ensures Faithful(DirEntries(g, im, s.chains, d), at, s.tree[d][at]) {
          assert Has(s, Ref(d, at)) && ReadsBack(g, im, s, Ref(d, at));
        }
      }
    }
  }

  /** No directory has two short entries with the same eleven bytes; folded behind `Singled`. */
  ghost predicate UniqueShorts(g: Geometry, im: Image, s: State)
    requires g.Valid() && Fits(g, im)
  {
    forall n: int :: Singled(n) ==> forall d :: d in s.tree ==> ShortUnique(DirEntries(g, im, s.chains, d))
  }

  ghost predicate SameFile(g: Geometry, a: Image, w: Chained, b: Image, v: Chained, r: Ref)
    requires g.Valid() && Fits(g, a)
  {
    OfFile(r) in w ==> OfFile(r) in v && v[OfFile(r)] == w[OfFile(r)] && OwnSame(g, a, b, w[OfFile(r)])
  }

  ghost predicate SameNode(g: Geometry, a: Image, s: State, b: Image, s': State, r: Ref)
    requires g.Valid() && Fits(g, a) && Fits(g, b)
  {
    && (Has(s, r) <==> Has(s', r))
    && (Has(s, r) ==> Rec(s', r) == Rec(s, r) && (ReadsBack(g, a, s, r) <==> ReadsBack(g, b, s', r)))
  }

  /** Every node but those in `but` is there in both states with the same record and reads back in both or in
      neither; every file but those in `moved` has the same clusters, with the same bytes in them; short names
      stay unique. Folded behind `Conveyed`. */
  ghost predicate Carried(g: Geometry, a: Image, s: State, b: Image, s': State, but: set<Ref>, moved: set<Ref>) {
    forall n: int :: Conveyed(n) ==> Sized(g, a, b) && CarriedFacts(g, a, s, b, s', but, moved)
  }

  ghost predicate Sized(g: Geometry, a: Image, b: Image) {
    g.Valid() && Fits(g, a) && Fits(g, b)
  }

  ghost predicate CarriedFacts(g: Geometry, a: Image, s: State, b: Image, s': State, but: set<Ref>, moved: set<Ref>)
    requires Sized(g, a, b)
  {
    && (UniqueShorts(g, a, s) ==> UniqueShorts(g, b, s'))
    && (forall r :: r !in but ==> SameNode(g, a, s, b, s', r))
    && (forall r :: r !in moved ==> SameFile(g, a, s.chains, b, s'.chains, r))
  }

  lemma NodeCarried(g: Geometry, a: Image, s: State, b: Image, s': State, but: set<Ref>, moved: set<Ref>, r: Ref)
    requires Sized(g, a, b) && Carried(g, a, s, b, s', but, moved) && r !in but
    ensures SameNode(g, a, s, b, s', r)
  {
    assert Conveyed(0);
  }

  lemma FileCarried(g: Geometry, a: Image, s: State, b: Image, s': State, but: set<Ref>, moved: set<Ref>, r: Ref)
    requires Sized(g, a, b) && Carried(g, a, s, b, s', but, moved) && r !in moved
    ensures SameFile(g, a, s.chains, b, s'.chains, r)
  {
    assert Conveyed(0);
  }

  lemma UniqueCarried(g: Geometry, a: Image, s: State, b: Image, s': State, but: set<Ref>, moved: set<Ref>)
    requires Sized(g, a, b) && Carried(g, a, s, b, s', but, moved)
    ensures UniqueShorts(g, a, s) ==> UniqueShorts(g, b, s')
  {
    assert Conveyed(0);
  }

  lemma CarriedTrans(g: Geometry, a: Image, s: State, b: Image, s': State, c: Image, s'': State, but: set<Ref>,
      moved: set<Ref>)
    requires Carried(g, a, s, b, s', but, moved) && Carried(g, b, s', c, s'', but, moved)
    ensures Carried(g, a, s, c, s'', but, moved)
  {
    assert Conveyed(0);
    forall r | r !in but ensures SameNode(g, a, s, c, s'', r) {
      assert SameNode(g, a, s, b, s', r) && SameNode(g, b, s', c, s'', r);
    }
    forall r | r !in moved ensures SameFile(g, a, s.chains, c, s''.chains, r) {
      assert SameFile(g, a, s.chains, b, s'.chains, r) && SameFile(g, b, s'.chains, c, s''.chains, r);
      if OfFile(r) in s.chains {
        OwnSameTrans(g, a, b, c, s.chains[OfFile(r)]);
      }
    }
  }

  lemma CarriedMore(g: Geometry, a: Image, s: State, b: Image, s': State, but: set<Ref>, moved: set<Ref>,
      but': set<Ref>, moved': set<Ref>)
    requires Carried(g, a, s, b, s', but, moved) && but <= but' && moved <= moved'
    ensures Carried(g, a, s, b, s', but', moved')
  {
    assert Conveyed(0);
  }

  lemma CarriedRefl(g: Geometry, a: Image, s: State, but: set<Ref>, moved: set<Ref>)
    requires g.Valid() && Fits(g, a)
    ensures Carried(g, a, s, a, s, but, moved)
  {
  }

  /** Work that leaves every directory as it was. */
  lemma CarriedAlike(g: Geometry, a: Image, s: State, b: Image, more: Chained, moved: set<Ref>)
    requires DirsAlike(g, a, b, s, more, {}) && forall r :: r !in moved ==> SameFile(g, a, s.chains, b, more, r)
    ensures Carried(g, a, s, b, s.(chains := more), {}, moved)
  {
    var s' := s.(chains := more);
    forall d | d in s.tree ensures DirEntries(g, b, more, d) == DirEntries(g, a, s.chains, d) {
      AlikeAt(g, a, b, s, more, {}, d);
    }
    if UniqueShorts(g, a, s) {
      assert Singled(0);
    }
    forall r ensures SameNode(g, a, s, b, s', r) {
      if Has(s, r) {
        assert Rec(s', r) == Rec(s, r);
      }
    }
  }

  ghost predicate KeptAt(c: Index, c': Index, kept: Index, at: nat) {
    (at in c <==> at in c') && (at in c ==> at in kept && kept[at] == c[at] == c'[at])
  }

  lemma DirNode(g: Geometry, a: Image, s: State, b: Image, d: nat, c: Index, more: Chained, kept: Index, r: Ref)
    requires d in s.tree && DirsAlike(g, a, b, s, more, {d})
    requires Stays(DirEntries(g, a, s.chains, d), DirEntries(g, b, more, d), kept)
    requires r.dir == d ==> KeptAt(s.tree[d], c, kept, r.at)
    ensures SameNode(g, a, s, b, s.(tree := s.tree[d := c], chains := more), r)
  {
    if r.dir == d {
      if Has(s, r) {
        StaysAt(DirEntries(g, a, s.chains, d), DirEntries(g, b, more, d), kept, r.at);
      }
    } else if Has(s, r) {
      AlikeAt(g, a, b, s, more, {d}, r.dir);
    }
  }

  lemma DirUnique(g: Geometry, a: Image, s: State, b: Image, d: nat, c: Index, more: Chained)
    requires d in s.tree && DirsAlike(g, a, b, s, more, {d}) && UniqueShorts(g, a, s)
    requires ShortUnique(DirEntries(g, a, s.chains, d)) ==> ShortUnique(DirEntries(g, b, more, d))
    ensures UniqueShorts(g, b, s.(tree := s.tree[d := c], chains := more))
  {
    assert Singled(0);
    forall x | x in s.tree && x != d ensures DirEntries(g, b, more, x) == DirEntries(g, a, s.chains, x) {
      AlikeAt(g, a, b, s, more, {d}, x);
    }
  }

  /** Work on the entries of directory `d`. */
  lemma CarriedDir(g: Geometry, a: Image, s: State, b: Image, d: nat, c: Index, more: Chained, kept: Index,
      but: set<Ref>)
    requires d in s.tree && DirsAlike(g, a, b, s, more, {d})
    requires forall r :: SameFile(g, a, s.chains, b, more, r)
    requires Stays(DirEntries(g, a, s.chains, d), DirEntries(g, b, more, d), kept)
    requires ShortUnique(DirEntries(g, a, s.chains, d)) ==> ShortUnique(DirEntries(g, b, more, d))
    requires forall at :: Ref(d, at) !in but ==> KeptAt(s.tree[d], c, kept, at)
    ensures Carried(g, a, s, b, s.(tree := s.tree[d := c], chains := more), but, {})
  {
    var s' := s.(tree := s.tree[d := c], chains := more);
    if UniqueShorts(g, a, s) {
      DirUnique(g, a, s, b, d, c, more);
    }
    forall r | r !in but ensures SameNode(g, a, s, b, s', r) {
      assert r.dir == d ==> r == Ref(d, r.at);
      DirNode(g, a, s, b, d, c, more, kept, r);
    }
  }

  /** If the volume read back as it was at first, it does now exactly if `kept`; folded behind `Paced`. */
  ghost predicate InStep(g: Geometry, a: Image, s: State, b: Image, s': State, kept: bool) {
    forall n: int :: Paced(n) ==> Sized(g, a, b) && (Synced(g, a, s) ==> (Synced(g, b, s') <==> kept))
  }

  /** When everything but `but` is carried over, the volume reads back exactly if it did and those do. */
  lemma SyncedCarried(g: Geometry, a: Image, s: State, b: Image, s': State, but: set<Ref>, moved: set<Ref>)
    requires Sized(g, a, b) && Carried(g, a, s, b, s', but, moved) && Synced(g, a, s)
    ensures Synced(g, b, s') <==> forall r :: r in but && Has(s', r) ==> ReadsBack(g, b, s', r)
  {
    assert Mirrored(0);
    forall r | Has(s', r) && r !in but ensures ReadsBack(g, b, s', r) {
      NodeCarried(g, a, s, b, s', but, moved, r);
    }
  }

  lemma SyncedStill(g: Geometry, a: Image, s: State, b: Image, s': State)
    requires Sized(g, a, b) && Carried(g, a, s, b, s', {}, {})
    ensures Synced(g, b, s') <==> Synced(g, a, s)
  {
    assert Mirrored(0);
    forall r ensures SameNode(g, a, s, b, s', r) {
      NodeCarried(g, a, s, b, s', {}, {}, r);
    }
    if Synced(g, a, s) {
      SyncedCarried(g, a, s, b, s', {}, {});
    }
    if Synced(g, b, s') {
      forall r | Has(s, r) ensures ReadsBack(g, a, s, r) {
        assert SameNode(g, a, s, b, s', r) && ReadsBack(g, b, s', r);
      }
    }
  }

  /** The bytes of the file at `r`. */
  ghost function BytesOf(g: Geometry, im: Image, s: State, r: Ref): seq<Byte>
    requires g.Valid() && Fits(g, im)
  {
    if Has(s, r) && OfFile(r) in s.chains && InVolume(g, s.chains[OfFile(r)]) && Rec(s, r).length <= Room(g,
      |s.chains[OfFile(r)]|)
    then Raw(g, im, s.chains[OfFile(r)])[..Rec(s, r).length]
    else []
  }

  /** A file that is carried over holds the same bytes. */
  lemma BytesCarried(g: Geometry, a: Image, s: State, b: Image, s': State, but: set<Ref>, moved: set<Ref>, r: Ref)
    requires Sized(g, a, b) && Carried(g, a, s, b, s', but, moved) && r !in but && r !in moved && Has(s, r)
    requires OfFile(r) in s.chains
    ensures Has(s', r) && Rec(s', r) == Rec(s, r) && BytesOf(g, b, s', r) == BytesOf(g, a, s, r)
  {
    NodeCarried(g, a, s, b, s', but, moved, r);
    FileCarried(g, a, s, b, s', but, moved, r);
    if InVolume(g, s.chains[OfFile(r)]) {
      RawFrame(g, a, b, s.chains[OfFile(r)]);
    }
  }
}
