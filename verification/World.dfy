/** The directory tree of a volume: which nodes each directory lists, which chain each node owns, and what
    the entries on the device say of them. */
module World {
  import opened Bytes
  import opened Geometry
  import opened Chains
  import opened FatCache
  import opened ClusterData
  import opened Evolution
  import opened Allocation
  import opened Growth
  import opened FileBytes
  import opened LongNames
  import opened Layout
  import opened Edits
  import opened DirectoryIo
  import opened Directory
  import opened Entering
  import opened Ownership

  /** The directories by their first cluster, and the nodes each of them lists. */
  type Tree = map<nat, Index>

  datatype State = State(root: nat, tree: Tree, chains: Chained)

  ghost predicate Has(s: State, r: Ref) {
    r.dir in s.tree && r.at in s.tree[r.dir]
  }

  ghost function Rec(s: State, r: Ref): Record
    requires Has(s, r)
  {
    s.tree[r.dir][r.at]
  }

  /** The entries of directory `d` on the device. */
  ghost function DirEntries(g: Geometry, im: Image, chains: Chained, d: nat): Entries
    requires g.Valid() && Fits(g, im)
  {
    if OfDir(d) in chains && InVolume(g, chains[OfDir(d)]) then EntriesOf(g, im, chains[OfDir(d)]) else []
  }

  // Predicates quantified over one of these stay folded in a proof until it mentions that token.
  ghost predicate Shaped(n: int) { true }
  ghost predicate Inscribed(n: int) { true }
  ghost predicate Likened(n: int) { true }

  ghost predicate Headed(cs: seq<nat>, c: nat) {
    cs != [] && cs[0] == c
  }

  /** A node owns what its record says: a file a chain with room for its length, a directory its place in
      the tree. */
  ghost predicate NodeOk(g: Geometry, s: State, r: Ref)
    requires Has(s, r)
  {
    var rec := Rec(s, r);
    && Storable(rec)
    && if rec.isDir then rec.cluster in s.tree && rec.cluster != s.root
       else OfFile(r) in s.chains && HeadOf(s.chains[OfFile(r)], rec.cluster) && rec.length <= Room(g,
         |s.chains[OfFile(r)]|)
  }

  /** A directory listed under another, not counting the entries in `skip`. */
  ghost predicate IsSub(s: State, skip: set<Ref>, r: Ref) {
    Has(s, r) && r !in skip && Rec(s, r).isDir
  }

  ghost predicate OwnerOk(s: State, skip: set<Ref>, o: Owner) {
    match o
    case OfDir(d) => d in s.tree
    case OfFile(r) => Has(s, r) && r !in skip && !Rec(s, r).isDir
    case Spare => true
  }

  ghost predicate ShapeFacts(g: Geometry, s: State, skip: set<Ref>) {
    && s.root in s.tree && Spare in s.chains
    && (forall d :: d in s.tree ==> OfDir(d) in s.chains && Headed(s.chains[OfDir(d)], d))
    && (forall r :: Has(s, r) && r !in skip ==> NodeOk(g, s, r))
    && (forall r, q :: IsSub(s, skip, r) && IsSub(s, skip, q) && Rec(s, r).cluster == Rec(s, q).cluster ==> r == q)
    && (forall o :: o in s.chains ==> OwnerOk(s, skip, o))
  }

  /** Nodes and chains belong to each other; entries in `skip` are listed but own nothing. Folded behind
      `Shaped`. */
  ghost predicate Shape(g: Geometry, s: State, skip: set<Ref>) {
    forall n: int :: Shaped(n) ==> ShapeFacts(g, s, skip)
  }

  ghost predicate TellsAt(e: Entries, at: nat, rec: Record) {
    at < |e| && Tells(e[at], rec)
  }

  ghost predicate Recounted(n: int) { true }

  /** The entry at `r` says what `rec` says; folded behind `Recounted`. */
  ghost predicate Told(g: Geometry, im: Image, w: Chained, r: Ref, rec: Record) {
    g.Valid() && Fits(g, im) && forall n: int :: Recounted(n) ==> TellsAt(DirEntries(g, im, w, r.dir), r.at, rec)
  }

  ghost predicate EnteredFacts(g: Geometry, im: Image, s: State, skip: set<Ref>)
    requires g.Valid() && Fits(g, im)
  {
    && (forall d :: d in s.tree ==> WellKept(DirEntries(g, im, s.chains, d), s.tree[d]))
    && (forall r :: Has(s, r) && r !in skip ==> TellsAt(DirEntries(g, im, s.chains, r.dir), r.at, Rec(s, r)))
  }

  /** The entries on the device hold exactly these nodes and say of each what its record says; folded
      behind `Inscribed`. */
  ghost predicate Entered(g: Geometry, im: Image, s: State, skip: set<Ref>) {
    g.Valid() && Fits(g, im) && forall n: int :: Inscribed(n) ==> EnteredFacts(g, im, s, skip)
  }

  lemma NodeOf(g: Geometry, s: State, skip: set<Ref>, r: Ref)
    requires Shape(g, s, skip) && Has(s, r) && r !in skip
    ensures NodeOk(g, s, r)
  {
    assert Shaped(0);
  }

  lemma DirOf(g: Geometry, s: State, skip: set<Ref>, d: nat)
    requires Shape(g, s, skip) && d in s.tree
    ensures OfDir(d) in s.chains && Headed(s.chains[OfDir(d)], d)
  {
    assert Shaped(0);
  }

  lemma EntriesKept(g: Geometry, im: Image, s: State, skip: set<Ref>, d: nat)
    requires Entered(g, im, s, skip) && d in s.tree
    ensures WellKept(DirEntries(g, im, s.chains, d), s.tree[d])
  {
    assert Inscribed(0);
  }

  lemma EntryTells(g: Geometry, im: Image, s: State, skip: set<Ref>, r: Ref)
    requires Entered(g, im, s, skip) && Has(s, r) && r !in skip
    ensures TellsAt(DirEntries(g, im, s.chains, r.dir), r.at, Rec(s, r))
  {
    assert Inscribed(0);
  }

  lemma NodeTold(g: Geometry, im: Image, s: State, skip: set<Ref>, r: Ref)
    requires Entered(g, im, s, skip) && Has(s, r) && r !in skip
    ensures Told(g, im, s.chains, r, Rec(s, r))
  {
    EntryTells(g, im, s, skip, r);
  }

  lemma ToldAlike(g: Geometry, a: Image, b: Image, s: State, more: Chained, r: Ref, rec: Record)
    requires DirsAlike(g, a, b, s, more, {}) && r.dir in s.tree && Told(g, a, s.chains, r, rec)
    ensures Told(g, b, more, r, rec)
  {
    assert Recounted(0);
    AlikeAt(g, a, b, s, more, {}, r.dir);
  }

  // ---------------------------------------------------------------- what work on one chain leaves alone

  /** Work on the chain of `x` changes no cluster of any other. */
  lemma OthersKept(g: Geometry, a: Snap, b: Image, t: Table, ch: seq<nat>, chains: Chained, x: Owner)
    requires Sound(g, a) && Forest(a.table, chains) && x in chains && a.chain == chains[x]
    requires DataKept(g, a.table, a.chain, a.image, b)
    ensures forall y :: y in chains && y != x ==> OwnSame(g, a.image, b, chains[y])
  {
    forall y | y in chains && y != x ensures OwnSame(g, a.image, b, chains[y]) {
      Unmoved(a.table, a.chain, false);
      OtherChain(a.table, chains, x, a.table, a.chain, y);
    }
  }

  lemma EvolvedKept(g: Geometry, a: Snap, b: Snap, chains: Chained, x: Owner)
    requires Evolves(g, a, b) && Forest(a.table, chains) && x in chains && a.chain == chains[x]
    ensures Within(a.table, a.chain, b.table, b.chain)
    ensures forall y :: y in chains && y != x ==> OwnSame(g, a.image, b.image, chains[y])
  {
    assert Replayed(0);
    OthersKept(g, a, b.image, b.table, b.chain, chains, x);
  }

  /** A directory's entries depend on its own chain only. */
  lemma DirSame(g: Geometry, a: Image, b: Image, chains: Chained, more: Chained, d: nat)
    requires g.Valid() && Fits(g, a) && Fits(g, b) && OfDir(d) in chains && OfDir(d) in more
    requires more[OfDir(d)] == chains[OfDir(d)]
    requires OwnSame(g, a, b, chains[OfDir(d)])
    ensures DirEntries(g, b, more, d) == DirEntries(g, a, chains, d)
  {
    if InVolume(g, chains[OfDir(d)]) {
      EntriesSame(g, a, b, chains[OfDir(d)]);
    }
  }

  /** The directories of `s` have the same chains in `more`, with the same bytes in them. */
  ghost predicate DirsAlike(g: Geometry, a: Image, b: Image, s: State, more: Chained, but: set<nat>) {
    && g.Valid() && Fits(g, a) && Fits(g, b)
    && forall n: int :: Likened(n) ==> forall d :: d in s.tree && d !in but ==>
      OfDir(d) in s.chains && OfDir(d) in more && more[OfDir(d)] == s.chains[OfDir(d)]
        && OwnSame(g, a, b, s.chains[OfDir(d)])
  }

  lemma AlikeAt(g: Geometry, a: Image, b: Image, s: State, more: Chained, but: set<nat>, d: nat)
    requires DirsAlike(g, a, b, s, more, but) && d in s.tree && d !in but
    ensures DirEntries(g, b, more, d) == DirEntries(g, a, s.chains, d)
  {
    assert Likened(0);
    DirSame(g, a, b, s.chains, more, d);
  }

  lemma EnteredFrame(g: Geometry, a: Image, b: Image, s: State, skip: set<Ref>, more: Chained, skip': set<Ref>)
    requires Entered(g, a, s, skip) && DirsAlike(g, a, b, s, more, {}) && skip <= skip'
    ensures Entered(g, b, s.(chains := more), skip')
  {
    assert Inscribed(0);
    forall d | d in s.tree ensures DirEntries(g, b, more, d) == DirEntries(g, a, s.chains, d) {
      AlikeAt(g, a, b, s, more, {}, d);
    }
    var s' := s.(chains := more);
    forall r | Has(s', r) && r !in skip' ensures TellsAt(DirEntries(g, b, more, r.dir), r.at, Rec(s', r)) {
      assert Has(s, r) && Rec(s', r) == Rec(s, r);
    }
  }

  /** New entries in directory `d`. */
  lemma EnteredDir(g: Geometry, a: Image, b: Image, s: State, skip: set<Ref>, d: nat, c: Index, more: Chained,
      skip': set<Ref>)
    requires Entered(g, a, s, skip) && d in s.tree && DirsAlike(g, a, b, s, more, {d})
    requires forall r :: r in skip ==> r.dir == d || r in skip'
    requires WellKept(DirEntries(g, b, more, d), c)
    requires forall at :: at in c && Ref(d, at) !in skip' ==> TellsAt(DirEntries(g, b, more, d), at, c[at])
    ensures Entered(g, b, s.(tree := s.tree[d := c], chains := more), skip')
  {
    assert Inscribed(0);
    var s' := s.(tree := s.tree[d := c], chains := more);
    forall x | x in s'.tree ensures WellKept(DirEntries(g, b, more, x), s'.tree[x]) {
      if x != d {
        AlikeAt(g, a, b, s, more, {d}, x);
      }
    }
    forall r | Has(s', r) && r !in skip' ensures TellsAt(DirEntries(g, b, more, r.dir), r.at, Rec(s', r)) {
      if r.dir != d {
        assert Has(s, r) && Rec(s', r) == Rec(s, r);
        AlikeAt(g, a, b, s, more, {d}, r.dir);
      } else {
        assert r == Ref(d, r.at);
      }
    }
  }

  // ---------------------------------------------------------------- steps of the tree

  /** The chain of a directory, or of a file, grows. */
  lemma ShapeGrown(g: Geometry, s: State, skip: set<Ref>, x: Owner, ch: seq<nat>)
    requires Shape(g, s, skip) && x in s.chains && s.chains[x] <= ch && (s.chains[x] == [] ==> ch == [])
    ensures Shape(g, s.(chains := s.chains[x := ch]), skip)
  {
    assert Shaped(0);
    var s' := s.(chains := s.chains[x := ch]);
    forall r | Has(s', r) && r !in skip ensures NodeOk(g, s', r) {
      assert Has(s, r) && Rec(s', r) == Rec(s, r);
      if OfFile(r) == x {
        RoomMonotone(g, |s.chains[x]|, |ch|);
      }
    }
    ShapeRest(g, s, s', skip, skip);
  }

  /** The parts of a shape that only ask which nodes there are. */
  lemma ShapeRest(g: Geometry, s: State, s': State, skip: set<Ref>, skip': set<Ref>)
    requires ShapeFacts(g, s, skip) && s'.tree == s.tree && s'.root == s.root && skip <= skip'
    ensures forall r, q :: IsSub(s', skip', r) && IsSub(s', skip', q) && Rec(s', r).cluster == Rec(s', q).cluster ==>
      r == q
    ensures forall o :: OwnerOk(s, skip', o) ==> OwnerOk(s', skip', o)
  {
    forall r, q | IsSub(s', skip', r) && IsSub(s', skip', q)
      && Rec(s', r).cluster == Rec(s', q).cluster ensures r == q {
      assert IsSub(s, skip, r) && IsSub(s, skip, q);
    }
  }

  /** The clusters of `r` change hands: its entry may say what it likes from now on. */
  ghost function Released(s: State, r: Ref): State
    requires Has(s, r) && (Rec(s, r).isDir || OfFile(r) in s.chains)
  {
    if Rec(s, r).isDir then s else s.(chains := Rekey(s.chains, OfFile(r), Spare))
  }

  lemma ShapeReleased(g: Geometry, s: State, skip: set<Ref>, r: Ref)
    requires Shape(g, s, skip) && Has(s, r) && r !in skip && Spare in s.chains && s.chains[Spare] == []
    ensures Rec(s, r).isDir || OfFile(r) in s.chains
    ensures Shape(g, Released(s, r), skip + {r})
  {
    assert Shaped(0);
    assert NodeOk(g, s, r);
    var s' := Released(s, r);
    forall q | Has(s', q) && q !in skip + {r} ensures NodeOk(g, s', q) {
      assert Has(s, q) && Rec(s', q) == Rec(s, q) && NodeOk(g, s, q);
    }
    ShapeRest(g, s, s', skip, skip + {r});
    forall o | o in s'.chains ensures OwnerOk(s', skip + {r}, o) {
      assert o != Spare ==> o in s.chains && OwnerOk(s, skip, o);
    }
  }

  /** An entry that owns nothing goes. */
  ghost function Dropped(s: State, r: Ref): State
    requires r.dir in s.tree
  {
    s.(tree := s.tree[r.dir := s.tree[r.dir] - {r.at}])
  }

  lemma ShapeDropped(g: Geometry, s: State, skip: set<Ref>, r: Ref)
    requires Shape(g, s, skip) && Has(s, r) && r in skip
    ensures Shape(g, Dropped(s, r), skip - {r})
  {
    assert Shaped(0);
    var s' := Dropped(s, r);
    forall q | Has(s', q) ensures Has(s, q) && q != r && Rec(s', q) == Rec(s, q) {
    }
    forall q | Has(s, q) && q != r ensures Has(s', q) && Rec(s', q) == Rec(s, q) {
    }
    forall q | Has(s', q) && q !in skip - {r} ensures NodeOk(g, s', q) {
      assert NodeOk(g, s, q);
    }
    forall p, q | IsSub(s', skip - {r}, p) && IsSub(s', skip - {r}, q)
      && Rec(s', p).cluster == Rec(s', q).cluster ensures p == q {
      assert IsSub(s, skip, p) && IsSub(s, skip, q);
    }
    forall o | o in s'.chains ensures OwnerOk(s', skip - {r}, o) {
      assert OwnerOk(s, skip, o);
    }
  }

  /** An entry comes that owns nothing yet, or the record of such an entry changes. */
  ghost function Noted(s: State, r: Ref, rec: Record): State
    requires r.dir in s.tree
  {
    var c: Index := s.tree[r.dir][r.at := rec];
    s.(tree := s.tree[r.dir := c])
  }

  lemma ShapeNoted(g: Geometry, s: State, skip: set<Ref>, r: Ref, rec: Record)
    requires Shape(g, s, skip) && r.dir in s.tree && (!Has(s, r) || r in skip)
    ensures Shape(g, Noted(s, r, rec), skip + {r})
  {
    assert Shaped(0);
    var s' := Noted(s, r, rec);
    forall q | Has(s', q) && q != r ensures Has(s, q) && Rec(s', q) == Rec(s, q) {
    }
    forall q | Has(s', q) && q !in skip + {r} ensures NodeOk(g, s', q) {
      assert NodeOk(g, s, q);
    }
    forall p, q | IsSub(s', skip + {r}, p) && IsSub(s', skip + {r}, q)
      && Rec(s', p).cluster == Rec(s', q).cluster ensures p == q {
      assert IsSub(s, skip, p) && IsSub(s, skip, q);
    }
    forall o | o in s'.chains ensures OwnerOk(s', skip + {r}, o) {
      assert OwnerOk(s, skip, o);
    }
  }

  /** The file at `r` takes over the spare chain. */
  ghost function Adopted(s: State, r: Ref): State
    requires Spare in s.chains
  {
    s.(chains := Rekey(s.chains, Spare, OfFile(r)))
  }

  lemma ShapeAdopted(g: Geometry, s: State, skip: set<Ref>, r: Ref)
    requires Shape(g, s, skip) && Spare in s.chains && Has(s, r) && r in skip && !Rec(s, r).isDir && Storable(Rec(s, r))
    requires HeadOf(s.chains[Spare], Rec(s, r).cluster) && Rec(s, r).length <= Room(g, |s.chains[Spare]|)
    ensures OfFile(r) !in s.chains && Shape(g, Adopted(s, r), skip - {r})
  {
    assert Shaped(0);
    assert OfFile(r) in s.chains ==> OwnerOk(s, skip, OfFile(r));
    var s' := Adopted(s, r);
    forall q | Has(s', q) && q !in skip - {r} ensures NodeOk(g, s', q) {
      assert Has(s, q) && Rec(s', q) == Rec(s, q);
      if q != r {
        assert NodeOk(g, s, q);
      }
    }
    forall p, q | IsSub(s', skip - {r}, p) && IsSub(s', skip - {r}, q)
      && Rec(s', p).cluster == Rec(s', q).cluster ensures p == q {
      assert IsSub(s, skip, p) && IsSub(s, skip, q);
    }
    forall o | o in s'.chains ensures OwnerOk(s', skip - {r}, o) {
      assert o != OfFile(r) ==> o in s.chains && OwnerOk(s, skip, o);
    }
  }

  /** The directory at `r` takes over the spare chain: a new directory with no nodes. */
  ghost function Founded(s: State, v: nat): State
    requires Spare in s.chains
  {
    s.(tree := s.tree[v := map[]], chains := Rekey(s.chains, Spare, OfDir(v)))
  }

  lemma ShapeFounded(g: Geometry, s: State, skip: set<Ref>, r: Ref)
    requires Shape(g, s, skip) && Spare in s.chains && Has(s, r) && r in skip && Rec(s, r).isDir && Storable(Rec(s, r))
    requires Rec(s, r).cluster !in s.tree && Headed(s.chains[Spare], Rec(s, r).cluster)
    ensures OfDir(Rec(s, r).cluster) !in s.chains && Shape(g, Founded(s, Rec(s, r).cluster), skip - {r})
  {
    assert Shaped(0);
    var v := Rec(s, r).cluster;
    assert OfDir(v) in s.chains ==> OwnerOk(s, skip, OfDir(v));
    var s' := Founded(s, v);
    forall q | Has(s', q) ensures Has(s, q) && Rec(s', q) == Rec(s, q) {
    }
    forall q | Has(s', q) && q !in skip - {r} ensures NodeOk(g, s', q) {
      if q != r {
        assert NodeOk(g, s, q);
      }
    }
    forall p, q | IsSub(s', skip - {r}, p) && IsSub(s', skip - {r}, q)
      && Rec(s', p).cluster == Rec(s', q).cluster ensures p == q {
      assert p != r ==> IsSub(s, skip, p) && NodeOk(g, s, p);
      assert q != r ==> IsSub(s, skip, q) && NodeOk(g, s, q);
    }
    forall o | o in s'.chains ensures OwnerOk(s', skip - {r}, o) {
      assert o != OfDir(v) ==> o in s.chains && OwnerOk(s, skip, o);
    }
  }

  /** An empty directory that nothing points at any more gives up its chain. */
  ghost function Disbanded(s: State, v: nat): State
    requires OfDir(v) in s.chains
  {
    s.(tree := s.tree - {v}, chains := Rekey(s.chains, OfDir(v), Spare))
  }

  lemma ShapeDisbanded(g: Geometry, s: State, skip: set<Ref>, v: nat)
    requires Shape(g, s, skip) && Spare in s.chains && s.chains[Spare] == [] && v in s.tree && s.tree[v] == map[]
    requires v != s.root
    requires forall q :: IsSub(s, skip, q) ==> Rec(s, q).cluster != v
    ensures OfDir(v) in s.chains && Shape(g, Disbanded(s, v), skip)
  {
    assert Shaped(0);
    var s' := Disbanded(s, v);
    forall q | Has(s, q) ensures q.dir != v && Has(s', q) && Rec(s', q) == Rec(s, q) {
    }
    forall q | Has(s', q) ensures Has(s, q) && Rec(s', q) == Rec(s, q) {
    }
    forall q | Has(s', q) && q !in skip ensures NodeOk(g, s', q) {
      assert NodeOk(g, s, q);
      assert Rec(s, q).isDir ==> IsSub(s, skip, q);
    }
    forall p, q | IsSub(s', skip, p) && IsSub(s', skip, q) && Rec(s', p).cluster == Rec(s', q).cluster ensures p == q {
      assert IsSub(s, skip, p) && IsSub(s, skip, q);
    }
    forall o | o in s'.chains ensures OwnerOk(s', skip, o) {
      assert o != Spare ==> o in s.chains && o != OfDir(v) && OwnerOk(s, skip, o);
    }
  }

  /** The node at `q` takes over what the node at `r` owned. */
  ghost function Handed(s: State, r: Ref, q: Ref): State
    requires Has(s, r) && (Rec(s, r).isDir || OfFile(r) in s.chains)
  {
    if Rec(s, r).isDir then s else s.(chains := Rekey(s.chains, OfFile(r), OfFile(q)))
  }

  lemma ShapeHanded(g: Geometry, s: State, skip: set<Ref>, r: Ref, q: Ref)
    requires Shape(g, s, skip) && Has(s, r) && r !in skip && Has(s, q) && q in skip && q != r
    requires Rec(s, q) == Rec(s, r).(name := Rec(s, q).name, slots := Rec(s, q).slots)
    ensures (Rec(s, r).isDir || OfFile(r) in s.chains) && OfFile(q) !in s.chains
    ensures Shape(g, Handed(s, r, q), skip - {q} + {r})
  {
    assert Shaped(0);
    assert NodeOk(g, s, r);
    assert OfFile(q) in s.chains ==> OwnerOk(s, skip, OfFile(q));
    var s', skip' := Handed(s, r, q), skip - {q} + {r};
    forall p | Has(s', p) && p !in skip' ensures NodeOk(g, s', p) {
      assert Has(s, p) && Rec(s', p) == Rec(s, p);
      if p != q {
        assert NodeOk(g, s, p);
      }
    }
    forall p, p' | IsSub(s', skip', p) && IsSub(s', skip', p')
      && Rec(s', p).cluster == Rec(s', p').cluster ensures p == p' {
      HandedSub(s, skip, r, q, p);
      HandedSub(s, skip, r, q, p');
    }
    forall o | o in s'.chains ensures OwnerOk(s', skip', o) {
      assert o != OfFile(q) ==> o in s.chains && OwnerOk(s, skip, o);
    }
  }

  lemma HandedSub(s: State, skip: set<Ref>, r: Ref, q: Ref, p: Ref)
    requires Has(s, r) && r !in skip && Has(s, q) && q in skip && Rec(s, q).isDir == Rec(s, r).isDir
    requires Rec(s, q).cluster == Rec(s, r).cluster
    requires IsSub(s, skip - {q} + {r}, p)
    ensures var p' := if p == q then r else p; IsSub(s, skip, p') && Rec(s, p').cluster == Rec(s, p).cluster && p != r
  {
  }
}
