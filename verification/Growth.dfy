/** Growing a chain, all or nothing (kernel/fat32.c:233-243, kernel/fat32.c:314-366). */
module Growth {
  import opened Bytes
  import opened Geometry
  import opened Chains
  import opened FatCache
  import opened ClusterData
  import opened Evolution
  import opened Allocation

  /** The volume as an operation on the file that owns `cs` sees it. */
  ghost function View(fat: Fat, cs: seq<nat>, live: bool): Snap
    reads fat, fat.dev
  {
    Snap(fat.dev.fat, cs, live, fat.dev.disk, fat.dev.sectors, fat.dev.log)
  }

  ghost predicate HeadOf(cs: seq<nat>, first: nat) {
    if cs == [] then first < 2 else first == cs[0]
  }

  ghost predicate ZeroedCluster(g: Geometry, d: Image, c: nat)
    requires g.Valid() && Fits(g, d)
  {
    g.InRange(c) && forall s :: 0 <= s < g.spc ==> ClusterSector(g, d, c, s) == ZeroSector()
  }

  ghost predicate OthersSame(g: Geometry, a: Image, b: Image, c: nat)
    requires g.Valid() && Fits(g, a)
  {
    Fits(g, b) && forall c' :: g.InRange(c') && c' != c ==> SameCluster(g, a, b, c')
  }

  ghost predicate Filmed(n: int) { true }

  /** The clusters `cs` hold the same bytes at every moment from `a` to `b`; folded behind `Filmed`. */
  ghost predicate Still(g: Geometry, cs: seq<nat>, a: Snap, b: Snap) {
    g.Valid() && Fits(g, a.image) && a.log <= b.log && forall n: int :: Filmed(n) ==> StillFacts(g, cs, a, b)
  }

  ghost predicate StillFacts(g: Geometry, cs: seq<nat>, a: Snap, b: Snap)
    requires g.Valid() && Fits(g, a.image)
  {
    OwnSame(g, a.image, b.image, cs) && forall i :: |a.log| <= i < |b.log| ==> OwnSame(g, a.image, b.log[i].image, cs)
  }

  lemma StillTrans(g: Geometry, cs: seq<nat>, a: Snap, b: Snap, c: Snap)
    requires Still(g, cs, a, b) && Still(g, cs, b, c)
    ensures Still(g, cs, a, c)
  {
    assert Filmed(0);
    OwnSameTrans(g, a.image, b.image, c.image, cs);
    forall i | |a.log| <= i < |c.log| ensures OwnSame(g, a.image, c.log[i].image, cs) {
      if i < |b.log| {
        assert c.log[i] == b.log[i];
      } else {
        OwnSameTrans(g, a.image, b.image, c.log[i].image, cs);
      }
    }
  }

  /** Only the table was written. */
  ghost predicate TableOnly(g: Geometry, a: Snap, b: Snap) {
    && a.log <= b.log && SameOutsideFat(g, b.image, a.image)
    && forall i :: |a.log| <= i < |b.log| ==> SameOutsideFat(g, b.log[i].image, a.image)
  }

  lemma StillTable(g: Geometry, cs: seq<nat>, a: Snap, b: Snap)
    requires g.Valid() && Fits(g, a.image) && TableOnly(g, a, b)
    ensures Still(g, cs, a, b)
  {
    OwnFatFrame(g, a.image, b.image, cs);
    forall i | |a.log| <= i < |b.log| ensures OwnSame(g, a.image, b.log[i].image, cs) {
      OwnFatFrame(g, a.image, b.log[i].image, cs);
    }
  }

  ghost predicate Rooted(n: int) { true }

  /** At every moment from `a` to `b` the table on the device is the one it was, or one in which `cs` is a
      whole chain; folded behind `Rooted`. */
  ghost predicate Trunk(cs: seq<nat>, a: Snap, b: Snap) {
    && a.log <= b.log
    && forall n: int :: Rooted(n) ==>
      forall i :: |a.log| <= i < |b.log| ==> b.log[i].table == a.disk || Owns(b.log[i].table, cs)
  }

  lemma TrunkTrans(g: Geometry, cs: seq<nat>, a: Snap, b: Snap, c: Snap)
    requires Sound(g, a) && Sound(g, b) && Trunk(cs, a, b) && Trunk(cs, b, c)
    ensures Trunk(cs, a, c)
  {
    assert Rooted(0);
    forall i | |a.log| <= i < |c.log| ensures c.log[i].table == a.disk || Owns(c.log[i].table, cs) {
      if i < |b.log| {
        assert c.log[i] == b.log[i];
      } else if |a.log| < |b.log| {
        assert b.log[|b.log| - 1].table == b.disk;
      }
    }
  }

  lemma TrunkRefl(cs: seq<nat>, a: Snap, b: Snap)
    requires a.log == b.log
    ensures Trunk(cs, a, b)
  {
  }

  lemma TrunkRead(g: Geometry, cs: seq<nat>, a: Snap, b: Snap)
    requires Owns(a.table, cs) && Logged(g, a.log, b.log, a.table, a.image)
    ensures Trunk(cs, a, b)
  {
  }

  /** Marking a free cluster in use disturbs no chain. */
  lemma TrunkTaken(g: Geometry, cs: seq<nat>, a: Snap, b: Snap, c: nat)
    requires Owns(a.table, cs) && c < |a.table| && c !in cs && a.log <= b.log
    requires forall i :: |a.log| <= i < |b.log| ==>
      b.log[i].table == a.table || b.log[i].table == a.table[c := FAT_MASK]
    ensures Trunk(cs, a, b)
  {
    if cs != [] {
      ChainFrame(a.table, a.table[c := FAT_MASK], cs);
    }
  }

  lemma StillFewer(g: Geometry, cs: seq<nat>, ch: seq<nat>, a: Snap, b: Snap)
    requires Still(g, ch, a, b) && forall c :: c in cs ==> c in ch
    ensures Still(g, cs, a, b)
  {
    assert Filmed(0);
  }

  /** One sector of cluster `c` was written. */
  lemma StillStep(g: Geometry, cs: seq<nat>, a: Snap, b: Snap, c: nat, s: nat, w: Sector)
    requires g.Valid() && Fits(g, a.image) && g.InRange(c) && s < g.spc && c !in cs
    requires g.ClusterLba(c) + s < |a.image| && b.image == a.image[g.ClusterLba(c) + s := w]
    requires b.log == a.log + [Moment(b.image, b.disk)]
    ensures Still(g, cs, a, b)
  {
    forall c' | c' in cs ensures SameCluster(g, a.image, b.image, c') {
      SectorFrame(g, a.image, c, s, w, c');
    }
  }

  /** A stretch of growth of the chain `cs`: other files are left alone, the old clusters keep their bytes,
      and if at most one cluster is added (`once`), the device never shows it before the stretch ends. */
  ghost predicate Grows(g: Geometry, cs: seq<nat>, once: bool, a: Snap, b: Snap) {
    Evolves(g, a, b) && Still(g, cs, a, b) && (once ==> Trunk(cs, a, b))
  }

  lemma GrowsTrans(g: Geometry, cs: seq<nat>, once: bool, a: Snap, b: Snap, c: Snap)
    requires Grows(g, cs, once, a, b) && Grows(g, cs, once, b, c)
    ensures Grows(g, cs, once, a, c)
  {
    EvolvesTrans(g, a, b, c);
    StillTrans(g, cs, a, b, c);
    if once {
      TrunkTrans(g, cs, a, b, c);
    }
  }

  lemma GrowsRefl(g: Geometry, cs: seq<nat>, once: bool, a: Snap)
    requires Sound(g, a) && (a.live ==> Owns(a.table, a.chain))
    ensures Grows(g, cs, once, a, a)
  {
    EvolvesRefl(g, a);
    StillTable(g, cs, a, a);
    TrunkRefl(cs, a, a);
  }

  /** A stretch that wrote the table only. */
  lemma GrowsTable(g: Geometry, cs: seq<nat>, once: bool, a: Snap, b: Snap)
    requires Evolves(g, a, b) && TableOnly(g, a, b) && (once ==> Trunk(cs, a, b))
    ensures Grows(g, cs, once, a, b)
  {
    StillTable(g, cs, a, b);
  }

  lemma GrowsOwn(g: Geometry, cs: seq<nat>, once: bool, a: Snap, b: Snap)
    requires Grows(g, cs, once, a, b)
    ensures OwnSame(g, a.image, b.image, cs)
  {
    assert Filmed(0);
  }

  /** Writes zeros over one cluster, a sector at a time. */
  method ZeroCluster(fat: Fat, c: nat, ghost cs: seq<nat>, ghost live: bool, ghost rest: seq<nat>)
    requires fat.Valid() && fat.dev.g.InRange(c) && Owns(fat.dev.fat, cs) && c in cs && c !in rest
    modifies fat.dev
    ensures fat.Valid() && fat.dev.fat == old(fat.dev.fat) && fat.dev.Holds() == old(fat.dev.Holds())
    ensures Still(fat.dev.g, rest, old(View(fat, cs, live)), View(fat, cs, live))
    ensures ZeroedCluster(fat.dev.g, fat.dev.sectors, c)
    ensures OthersSame(fat.dev.g, old(fat.dev.sectors), fat.dev.sectors, c)
    ensures Trunk(rest, old(View(fat, cs, live)), View(fat, cs, live))
    ensures Evolves(fat.dev.g, old(View(fat, cs, live)), View(fat, cs, live))
  {
    var g := fat.dev.g;
    EvolvesRefl(g, View(fat, cs, live));
    TrunkRefl(rest, View(fat, cs, live), View(fat, cs, live));
    StillTable(g, rest, View(fat, cs, live), View(fat, cs, live));
    for s := 0 to g.spc
      invariant fat.Valid() && fat.dev.fat == old(fat.dev.fat)
      invariant Still(g, rest, old(View(fat, cs, live)), View(fat, cs, live))
      invariant Trunk(rest, old(View(fat, cs, live)), View(fat, cs, live)) && fat.dev.Holds() == old(fat.dev.Holds())
      invariant forall s' :: 0 <= s' < s ==> ClusterSector(g, fat.dev.sectors, c, s') == ZeroSector()
      invariant OthersSame(g, old(fat.dev.sectors), fat.dev.sectors, c)
      invariant Evolves(g, old(View(fat, cs, live)), View(fat, cs, live))
    {
      ghost var a := View(fat, cs, live);
      ClusterInRegion(g, c, s);
      fat.dev.WriteSector(g.ClusterLba(c) + s, ZeroSector());
      DataStep(g, a, View(fat, cs, live), c, s, ZeroSector());
      EvolvesTrans(g, old(View(fat, cs, live)), a, View(fat, cs, live));
      StillStep(g, rest, a, View(fat, cs, live), c, s, ZeroSector());
      StillTrans(g, rest, old(View(fat, cs, live)), a, View(fat, cs, live));
      TrunkTrans(g, rest, old(View(fat, cs, live)), a, View(fat, cs, live));
      forall c' | g.InRange(c') && c' != c ensures SameCluster(g, old(fat.dev.sectors), fat.dev.sectors, c') {
        SectorFrame(g, a.image, c, s, ZeroSector(), c');
        SameClusterTrans(g, old(fat.dev.sectors), a.image, fat.dev.sectors, c');
      }
      forall s' | 0 <= s' < s + 1 ensures ClusterSector(g, fat.dev.sectors, c, s') == ZeroSector() {
        ClusterInRegion(g, c, s');
        assert s' < s ==> ClusterSector(g, a.image, c, s') == ZeroSector();
      }
    }
  }

  ghost function Last(cs: seq<nat>): nat {
    if cs == [] then 0 else cs[|cs| - 1]
  }

  /** One round of growth: takes a free cluster after the end of the chain and clears it. */
  method Extend(fat: Fat, cur: nat, ghost cs: seq<nat>, ghost live: bool) returns (next: nat)
    requires fat.Valid() && Owns(fat.dev.fat, cs) && cur == Last(cs)
    modifies fat, fat.dev
    ensures fat.Valid() && fat.linkSteps == old(fat.linkSteps)
    ensures next == 0 <==> FreeCount(old(fat.dev.fat)) == 0
    ensures next == 0 ==> fat.dev.fat == old(fat.dev.fat)
    ensures next != 0 ==> fat.dev.g.InRange(next) && old(fat.dev.fat)[next] == 0
    ensures next != 0 ==> fat.dev.fat == Linked(old(fat.dev.fat), cur, next)
    ensures next != 0 ==> NextFree(old(fat.dev.fat), old(fat.freeHint), next)
    ensures next != 0 && cur == 0 && old(!fat.dev.dirty) ==>
      fat.dev.Holds() == Held(true, fat.dev.g.fatLba + next / 128, old(fat.dev.fat)) && fat.memoCluster == 0
    ensures next != 0 ==> IsChain(fat.dev.fat, cs + [next]) && ZeroedCluster(fat.dev.g, fat.dev.sectors, next)
    ensures OthersSame(fat.dev.g, old(fat.dev.sectors), fat.dev.sectors, next)
    ensures Evolves(fat.dev.g, old(View(fat, cs, live)), View(fat, if next == 0 then cs else cs + [next], live))
    ensures Still(fat.dev.g, cs, old(View(fat, cs, live)), View(fat, if next == 0 then cs else cs + [next], live))
    ensures Trunk(cs, old(View(fat, cs, live)), View(fat, if next == 0 then cs else cs + [next], live))
    ensures old(fat.Exact()) ==> fat.Exact()
  {
    var g := fat.dev.g;
    ghost var a := View(fat, cs, live);
    next := fat.AllocCluster(cur);
    ghost var b := View(fat, if next == 0 then cs else cs + [next], live);
    forall c | g.InRange(c) ensures SameCluster(g, a.image, b.image, c) {
      FatFrame(g, a.image, b.image, c);
    }
    StillTable(g, cs, a, b);
    if next == 0 {
      ReadStep(g, a, b);
      TrunkRead(g, cs, a, b);
    } else {
      AppendStep(g, a, b, next);
      NotInUse(a.table, cs, next);
      TrunkTaken(g, cs, a, b, next);
      ZeroCluster(fat, next, cs + [next], live, cs);
      TrunkTrans(g, cs, a, b, View(fat, cs + [next], live));
      EvolvesTrans(g, a, b, View(fat, cs + [next], live));
      StillTrans(g, cs, a, b, View(fat, cs + [next], live));
      forall c | g.InRange(c) && c != next ensures SameCluster(g, a.image, fat.dev.sectors, c) {
        SameClusterTrans(g, a.image, b.image, fat.dev.sectors, c);
      }
    }
  }

  /** From `t`, where the chain is `cs`, to `u`, where it is `ch`: `ch` continues `cs` with clusters
      that were free, and every other entry is as it was. */
  ghost predicate Grown(t: Table, cs: seq<nat>, u: Table, ch: seq<nat>) {
    && |u| == |t| && cs <= ch && Owns(u, ch)
    && (forall i :: |cs| <= i < |ch| ==> 2 <= ch[i] < |t| && t[ch[i]] == 0)
    && (forall c :: 0 <= c < |t| && c !in ch ==> u[c] == t[c])
    && FreeCount(u) == FreeCount(t) - (|ch| - |cs|)
  }

  lemma GrownStep(t: Table, cs: seq<nat>, u: Table, ch: seq<nat>, c: nat)
    requires Owns(t, cs) && Grown(t, cs, u, ch) && 2 <= c < |t| <= FAT_BAD && u[c] == 0
    ensures Last(ch) < |u| && Grown(t, cs, Linked(u, Last(ch), c), ch + [c])
  {
    LinkedCount(u, Last(ch), c);
    var v := Linked(u, Last(ch), c);
    if ch != [] {
      ChainNonZero(u, ch);
      ChainAppend(u, ch, c);
    }
    assert t[c] == 0;
    assert Last(ch) != 0 ==> Last(ch) in ch;
    forall x | 0 <= x < |t| && x !in ch + [c] ensures v[x] == t[x] {
      assert x !in ch && x != c;
    }
  }

  /** The table once a failed growth is undone: the old chain again, ended by the standard marker. */
  ghost function Capped(t: Table, cs: seq<nat>): (u: Table)
    requires Owns(t, cs)
  {
    if cs == [] then t else t[cs[|cs| - 1] := FAT_MASK]
  }

  lemma CappedSame(t: Table, cs: seq<nat>)
    requires Owns(t, cs)
    ensures Owns(Capped(t, cs), cs) && FreeSet(Capped(t, cs)) == FreeSet(t)
    ensures forall c :: 0 <= c < |t| && c !in cs ==> Capped(t, cs)[c] == t[c]
  {
    if cs != [] {
      ChainNonZero(t, cs);
      ChainCut(t, cs, |cs|);
      assert cs[..|cs|] == cs;
    }
  }

  lemma UndoGrowth(t: Table, cs: seq<nat>, u: Table, ch: seq<nat>)
    requires Owns(t, cs) && Grown(t, cs, u, ch)
    ensures Owns(u, ch) && Freed(if cs == [] then u else u[cs[|cs| - 1] := FAT_MASK], ch[|cs|..]) == Capped(t, cs)
  {
    var mid := if cs == [] then u else u[cs[|cs| - 1] := FAT_MASK];
    var v := Freed(mid, ch[|cs|..]);
    forall c | 0 <= c < |t| ensures v[c] == Capped(t, cs)[c] {
      if c in ch[|cs|..] {
        var i :| |cs| <= i < |ch| && ch[i] == c;
        NotInUse(t, cs, c);
      } else if c in ch {
        assert ch == ch[..|cs|] + ch[|cs|..];
        var i :| 0 <= i < |cs| && ch[..|cs|][i] == c;
        OldLink(t, cs, u, ch, i);
      }
    }
  }

  lemma NotInUse(t: Table, cs: seq<nat>, c: nat)
    requires Owns(t, cs) && 2 <= c < |t| && t[c] == 0
    ensures c !in cs
  {
    if cs != [] {
      ChainNonZero(t, cs);
    }
  }

  lemma OldLink(t: Table, cs: seq<nat>, u: Table, ch: seq<nat>, i: nat)
    requires Owns(t, cs) && Owns(u, ch) && cs <= ch && i < |cs|
    ensures i < |cs| - 1 ==> u[cs[i]] == t[cs[i]] && cs[i] != cs[|cs| - 1]
  {
    if i < |cs| - 1 {
      assert Traced(0);
      ChainAcyclic(t, cs);
      assert t[cs[i]] == cs[i + 1] && u[ch[i]] == ch[i + 1];
    }
  }

  /** `free_chain` on a well-formed chain: exactly its clusters become free. */
  method FreeOwned(fat: Fat, first: nat, ghost cs: seq<nat>)
    requires fat.Valid() && IsChain(fat.dev.fat, cs) && first == cs[0]
    modifies fat, fat.dev
    ensures fat.Valid() && fat.linkSteps == old(fat.linkSteps)
    ensures fat.dev.fat == Freed(old(fat.dev.fat), cs)
    ensures FreeCount(fat.dev.fat) == FreeCount(old(fat.dev.fat)) + |cs|
    ensures SameOutsideFat(fat.dev.g, fat.dev.sectors, old(fat.dev.sectors))
    ensures old(fat.dev.log) <= fat.dev.log
    ensures forall i :: |old(fat.dev.log)| <= i < |fat.dev.log| ==>
      && SameOutsideFat(fat.dev.g, fat.dev.log[i].image, old(fat.dev.sectors))
      && FreedPrefix(old(fat.dev.fat), cs, fat.dev.log[i].table)
    ensures old(fat.Exact()) ==> fat.Exact()
  {
    ghost var t := fat.dev.fat;
    ghost var n := fat.FreeChain(first);
    FreedAll(t, cs, n);
    ChainAcyclic(t, cs);
    ChainNonZero(t, cs);
    FreedCount(t, cs);
  }

  /** Ends the chain at its `k`-th cluster `keep` and frees what followed it. */
  method CutTail(fat: Fat, keep: nat, rest: nat, ghost cs: seq<nat>, ghost k: nat)
    requires fat.Valid() && IsChain(fat.dev.fat, cs) && 0 < k <= |cs|
    requires keep == cs[k - 1] && rest == fat.dev.fat[keep]
    modifies fat, fat.dev
    ensures fat.Valid() && fat.linkSteps == old(fat.linkSteps)
    ensures fat.dev.fat == Freed(old(fat.dev.fat)[keep := FAT_MASK], cs[k..]) && IsChain(fat.dev.fat, cs[..k])
    ensures FreeCount(fat.dev.fat) == FreeCount(old(fat.dev.fat)) + |cs| - k
    ensures TableOnly(fat.dev.g, old(View(fat, cs, true)), View(fat, cs[..k], true))
    ensures k == |cs| ==> Trunk(cs, old(View(fat, cs, true)), View(fat, cs[..k], true))
    ensures Evolves(fat.dev.g, old(View(fat, cs, true)), View(fat, cs[..k], true))
    ensures old(fat.Exact()) ==> fat.Exact()
  {
    ghost var a, g := View(fat, cs, true), fat.dev.g;
    ghost var t, mid := fat.dev.fat, fat.dev.fat[keep := FAT_MASK];
    assert FreeCount(mid) == FreeCount(t) by {
      ChainNonZero(t, cs);
      FreeCountSame(t, keep, FAT_MASK);
    }
    var _ := fat.SetEntry(keep, FAT_MASK);
    if 2 <= rest < FAT_BAD {
      assert IsChain(mid, cs[k..]) && rest == cs[k..][0] by {
        ChainCut(t, cs, k);
      }
      FreeOwned(fat, rest, cs[k..]);
      CutStep(g, a, View(fat, cs[..k], true), k);
    } else {
      assert k == |cs| && cs[k..] == [] by {
        ChainCut(t, cs, k);
      }
      FreedNone(mid);
      TrunkRead(g, cs, a, View(fat, cs[..k], true));
      CutStep(g, a, View(fat, cs[..k], true), k);
    }
  }

  /** Undoes a failed growth of a chain that had clusters before: caps it where it ended and frees
      what was added. */
  method Rollback(fat: Fat, first: nat, had: nat, ghost t: Table, ghost cs: seq<nat>, ghost ch: seq<nat>)
    requires fat.Valid() && IsChain(t, cs) && IsChain(fat.dev.fat, ch) && cs <= ch && first == cs[0] && had == |cs|
    requires Freed(fat.dev.fat[cs[had - 1] := FAT_MASK], ch[had..]) == Capped(t, cs)
    modifies fat, fat.dev
    ensures fat.Valid() && fat.dev.fat == Capped(t, cs)
    ensures TableOnly(fat.dev.g, old(View(fat, ch, true)), View(fat, cs, true))
    ensures ch == cs ==> Trunk(cs, old(View(fat, ch, true)), View(fat, cs, true))
    ensures Evolves(fat.dev.g, old(View(fat, ch, true)), View(fat, cs, true))
    ensures old(fat.Exact()) ==> fat.Exact()
  {
    ghost var g, a, u := fat.dev.g, View(fat, ch, true), fat.dev.fat;
    assert ch[..had] == cs;
    assert Walk(u, first, had - 1) == cs[had - 1] by {
      WalkOnChain(u, ch, had - 1);
    }
    var keep := fat.ChainNth(first, had - 1);
    assert keep == cs[had - 1];
    if keep != 0 {
      var rest := fat.dev.Get(keep);
      ghost var b := View(fat, ch, true);
      ReadStep(g, a, b);
      TrunkRead(g, ch, a, b);
      CutTail(fat, keep, rest, ch, had);
      EvolvesTrans(g, a, b, View(fat, cs, true));
      if ch == cs {
        TrunkTrans(g, cs, a, b, View(fat, cs, true));
      }
    }
  }

  ghost predicate AddedZero(g: Geometry, d: Image, cs: seq<nat>, ch: seq<nat>)
    requires g.Valid() && Fits(g, d)
  {
    forall i :: |cs| <= i < |ch| ==> ZeroedCluster(g, d, ch[i])
  }

  ghost predicate OwnSame(g: Geometry, a: Image, b: Image, cs: seq<nat>)
    requires g.Valid() && Fits(g, a)
  {
    Fits(g, b) && forall c :: c in cs ==> SameCluster(g, a, b, c)
  }

  /** `chain_length` on a well-formed chain. */
  method LengthOf(fat: Fat, first: nat, ghost cs: seq<nat>, ghost live: bool) returns (n: nat)
    requires fat.Valid() && Owns(fat.dev.fat, cs) && HeadOf(cs, first)
    modifies fat.dev
    ensures fat.Valid() && fat.dev.fat == old(fat.dev.fat) && n == |cs| && (old(!fat.dev.dirty) ==> !fat.dev.dirty)
    ensures TableOnly(fat.dev.g, old(View(fat, cs, live)), View(fat, cs, live))
    ensures Trunk(cs, old(View(fat, cs, live)), View(fat, cs, live))
    ensures Evolves(fat.dev.g, old(View(fat, cs, live)), View(fat, cs, live))
  {
    ghost var a, t := View(fat, cs, live), fat.dev.fat;
    n := fat.ChainLength(first);
    if cs != [] {
      ChainFits(t, cs);
      WalkOnChain(t, cs, |cs|);
      WalkOnChain(t, cs, n);
    }
    ReadStep(fat.dev.g, a, View(fat, cs, live));
    TrunkRead(fat.dev.g, cs, a, View(fat, cs, live));
  }

  /** `chain_nth` on a well-formed chain. */
  method NthOf(fat: Fat, first: nat, index: nat, ghost cs: seq<nat>, ghost live: bool) returns (c: nat)
    requires fat.Valid() && Owns(fat.dev.fat, cs) && HeadOf(cs, first)
    modifies fat.dev, fat`memoFirst, fat`memoIndex, fat`memoCluster, fat`linkSteps
    ensures fat.Valid() && fat.dev.fat == old(fat.dev.fat)
    ensures c == if index < |cs| then cs[index] else 0
    ensures c != 0 ==> fat.memoFirst == first && fat.memoIndex == index && fat.memoCluster == c
    ensures c != 0 ==> Looked(fat.dev.g, fat.dev.fat, first, index, old(fat.At()), fat.At())
    ensures fat.linkSteps <= old(fat.linkSteps) + index
    ensures old(fat.memoCluster) >= 2 && old(fat.memoFirst) == first && old(fat.memoIndex) <= index ==>
      fat.linkSteps <= old(fat.linkSteps) + index - old(fat.memoIndex)
    ensures TableOnly(fat.dev.g, old(View(fat, cs, live)), View(fat, cs, live))
    ensures Trunk(cs, old(View(fat, cs, live)), View(fat, cs, live))
    ensures Evolves(fat.dev.g, old(View(fat, cs, live)), View(fat, cs, live))
    ensures old(!fat.dev.dirty) ==> !fat.dev.dirty && fat.dev.log == old(fat.dev.log)
  {
    ghost var a := View(fat, cs, live);
    if cs != [] {
      WalkOnChain(fat.dev.fat, cs, index);
    }
    c := fat.ChainNth(first, index);
    ReadStep(fat.dev.g, a, View(fat, cs, live));
    TrunkRead(fat.dev.g, cs, a, View(fat, cs, live));
  }

  lemma OwnFatFrame(g: Geometry, a: Image, b: Image, cs: seq<nat>)
    requires g.Valid() && Fits(g, a) && SameOutsideFat(g, b, a)
    ensures OwnSame(g, a, b, cs)
  {
    forall c | c in cs ensures SameCluster(g, a, b, c) {
      FatFrame(g, a, b, c);
    }
  }

  lemma OwnSameTrans(g: Geometry, a: Image, b: Image, d: Image, cs: seq<nat>)
    requires g.Valid() && Fits(g, a) && OwnSame(g, a, b, cs) && OwnSame(g, b, d, cs)
    ensures OwnSame(g, a, d, cs)
  {
    forall c | c in cs ensures SameCluster(g, a, d, c) {
      SameClusterTrans(g, a, b, d, c);
    }
  }

  /** A cluster added at the end disturbs neither the old clusters nor those added before it. */
  lemma AddedKept(g: Geometry, a: Image, b: Image, t: Table, cs: seq<nat>, u: Table, ch: seq<nat>, c: nat)
    requires g.Valid() && Fits(g, a) && OthersSame(g, a, b, c) && |t| == g.Limit()
    requires Owns(t, cs) && Grown(t, cs, u, ch) && g.InRange(c) && u[c] == 0
    requires AddedZero(g, a, cs, ch) && ZeroedCluster(g, b, c)
    ensures OwnSame(g, a, b, cs) && AddedZero(g, b, cs, ch + [c])
  {
    NotInUse(u, ch, c);
    assert forall x :: x in cs ==> x in ch;
    forall i | |cs| <= i < |ch| + 1 ensures ZeroedCluster(g, b, (ch + [c])[i]) {
      if i < |ch| {
        assert ZeroedCluster(g, a, ch[i]) && SameCluster(g, a, b, ch[i]);
      }
    }
  }

  /** The growth loop: stops at `need` clusters or when the volume is full. */
  method Lengthen(fat: Fat, end: nat, had: nat, need: nat, ghost t: Table, ghost cs: seq<nat>, ghost from: seq<nat>,
      ghost live: bool)
    returns (ok: bool, ghost ch: seq<nat>)
    requires fat.Valid() && |t| == fat.dev.g.Limit() && Owns(t, cs) && Longer(fat.dev.g, t, cs, View(fat, from, live))
    requires end == Last(from) && 0 < had == |from| <= need
    modifies fat, fat.dev
    ensures fat.Valid() && Longer(fat.dev.g, t, cs, View(fat, ch, live)) && ch != [] && from <= ch
    ensures if ok then |ch| == need else |ch| < need && FreeCount(fat.dev.fat) == 0
    ensures Grows(fat.dev.g, cs, need <= had + 1 && from == cs, old(View(fat, from, live)), View(fat, ch, live))
    ensures old(fat.Exact()) ==> fat.Exact()
  {
    ghost var g, a, once := fat.dev.g, View(fat, from, live), need <= had + 1 && from == cs;
    ch := from;
    var cur := end;
    GrowsRefl(g, cs, once, a);
    for i := had to need
      invariant fat.Valid() && Longer(g, t, cs, View(fat, ch, live)) && |ch| == i && from <= ch && cur == Last(ch)
      invariant Grows(g, cs, once, a, View(fat, ch, live))
      invariant old(fat.Exact()) ==> fat.Exact()
    {
      ghost var b := View(fat, ch, live);
      var next := Extend(fat, cur, ch, live);
      ghost var d := View(fat, if next == 0 then ch else ch + [next], live);
      assert once ==> ch == cs;
      Round(g, cs, once, t, a, b, d);
      RoundAdds(g, b, d, t, cs, ch, next);
      if next == 0 {
        return false, ch;
      }
      ch, cur := ch + [next], next;
    }
    return true, ch;
  }

  ghost predicate Gauged(n: int) { true }

  /** From `t` on, the chain `cs` has grown to `d.chain` by zeroed clusters; folded behind `Gauged`. */
  ghost predicate Longer(g: Geometry, t: Table, cs: seq<nat>, d: Snap) {
    && g.Valid() && Fits(g, d.image) && Owns(d.table, d.chain)
    && forall n: int :: Gauged(n) ==> Grown(t, cs, d.table, d.chain) && AddedZero(g, d.image, cs, d.chain)
  }

  lemma LongerIs(g: Geometry, t: Table, cs: seq<nat>, d: Snap)
    requires g.Valid() && Fits(g, d.image)
    ensures Longer(g, t, cs, d) <==> Grown(t, cs, d.table, d.chain) && AddedZero(g, d.image, cs, d.chain)
  {
    assert Gauged(0);
  }

  lemma Round(g: Geometry, cs: seq<nat>, once: bool, t: Table, a: Snap, b: Snap, d: Snap)
    requires Grows(g, cs, once, a, b) && Longer(g, t, cs, b) && Evolves(g, b, d)
    requires Still(g, b.chain, b, d) && Trunk(b.chain, b, d) && (once ==> b.chain == cs)
    ensures Grows(g, cs, once, a, d)
  {
    LongerIs(g, t, cs, b);
    forall c | c in cs ensures c in b.chain {
      var i :| 0 <= i < |cs| && cs[i] == c;
      assert b.chain[i] == c;
    }
    StillFewer(g, cs, b.chain, b, d);
    GrowsTrans(g, cs, once, a, b, d);
  }

  /** What one round adds. */
  lemma RoundAdds(g: Geometry, b: Snap, d: Snap, t: Table, cs: seq<nat>, ch: seq<nat>, next: nat)
    requires g.Valid() && Fits(g, b.image) && OthersSame(g, b.image, d.image, next) && |t| == g.Limit()
    requires Owns(t, cs) && b.chain == ch && Longer(g, t, cs, b)
    requires next == 0 ==> d.table == b.table && d.chain == ch
    requires next != 0 ==>
      g.InRange(next) && next < |b.table| && b.table[next] == 0 && ZeroedCluster(g, d.image, next)
      && d.chain == ch + [next]
    requires next != 0 ==> Last(ch) < |b.table| && d.table == Linked(b.table, Last(ch), next)
    ensures Longer(g, t, cs, d)
  {
    LongerIs(g, t, cs, b);
    if next == 0 {
      OwnFull(g, b.image, d.image, cs, ch);
    } else {
      AddedKept(g, b.image, d.image, t, cs, b.table, ch, next);
      GrownStep(t, cs, b.table, ch, next);
    }
    LongerIs(g, t, cs, d);
  }

  lemma OwnFull(g: Geometry, a: Image, b: Image, cs: seq<nat>, ch: seq<nat>)
    requires g.Valid() && Fits(g, a) && OthersSame(g, a, b, 0) && cs <= ch && InVolume(g, ch)
    requires AddedZero(g, a, cs, ch)
    ensures OwnSame(g, a, b, cs) && AddedZero(g, b, cs, ch)
  {
    forall c | c in cs ensures SameCluster(g, a, b, c) {
      var i :| 0 <= i < |cs| && cs[i] == c;
      assert ch[i] == c;
    }
    forall i | |cs| <= i < |ch| ensures ZeroedCluster(g, b, ch[i]) {
      assert ZeroedCluster(g, a, ch[i]) && SameCluster(g, a, b, ch[i]);
    }
  }

  /** Makes the chain from `first` at least `need` clusters long. It succeeds exactly when the volume
      has the space. On success the old chain is a prefix of the new one, its bytes are as they were
      and every added cluster is zero; on failure the chain, every other entry and the set of free
      clusters are exactly as before. At no moment on the way was any other file touched. */
  method EnsureChain(fat: Fat, first: nat, need: nat, ghost cs: seq<nat>)
    returns (ok: bool, head: nat, touched: bool, ghost ch: seq<nat>)
    requires fat.Valid() && Owns(fat.dev.fat, cs) && HeadOf(cs, first)
    modifies fat, fat.dev
    ensures fat.Valid() && Owns(fat.dev.fat, ch) && HeadOf(ch, head)
    ensures ok <==> need - |cs| <= FreeCount(old(fat.dev.fat))
    ensures ok ==> Grown(old(fat.dev.fat), cs, fat.dev.fat, ch) && |ch| == if |cs| < need then need else |cs|
    ensures ok ==> AddedZero(fat.dev.g, fat.dev.sectors, cs, ch)
    ensures ok && need <= |cs| ==> head == first && fat.dev.fat == old(fat.dev.fat)
    ensures !ok ==> ch == cs && head == first && fat.dev.fat == Capped(old(fat.dev.fat), cs)
    ensures OwnSame(fat.dev.g, old(fat.dev.sectors), fat.dev.sectors, cs)
    ensures Grows(fat.dev.g, cs, need <= |cs| + 1 && cs != [], old(View(fat, cs, cs != [])), View(fat, ch, cs != []))
    ensures touched <==> first < 2 && need > 0 && FreeCount(old(fat.dev.fat)) > 0
    ensures (head == first || (cs == [] && touched)) && (ch == [] || head < FAT_BAD)
    ensures old(fat.Exact()) ==> fat.Exact()
  {
    ghost var g, t, a, live, once := fat.dev.g, fat.dev.fat, View(fat, cs, cs != []), cs != [], need <= |cs| + 1
      && cs != [];
    ch, head, touched := cs, first, false;
    GrowsRefl(g, cs, once, a);
    if need == 0 {
      GrowsOwn(g, cs, once, a, a);
      return true, first, false, cs;
    }
    var had := LengthOf(fat, first, cs, live);
    ghost var b := View(fat, cs, live);
    GrowsTable(g, cs, once, a, b);
    if had >= need {
      GrowsOwn(g, cs, once, a, b);
      return true, first, false, cs;
    }
    if first < 2 {
      head := TakeFirst(fat);
      ghost var e := View(fat, if head == 0 then cs else [head], live);
      GrowsTrans(g, cs, once, a, b, e);
      if head == 0 {
        GrowsOwn(g, cs, once, a, e);
        return false, first, false, cs;
      }
      ch, had, touched := [head], 1, true;
    }
    ghost var d := View(fat, ch, live);
    ok, ch := GrowFrom(fat, first, head, had, need, t, cs, ch);
    GrowsTrans(g, cs, once, a, d, View(fat, ch, live));
    GrowsOwn(g, cs, once, a, View(fat, ch, live));
    if !ok {
      CappedSame(t, cs);
      head := first;
    }
  }

  /** The first cluster of a chain that had none. */
  method TakeFirst(fat: Fat) returns (head: nat)
    requires fat.Valid()
    modifies fat, fat.dev
    ensures fat.Valid() && (head == 0 <==> FreeCount(old(fat.dev.fat)) == 0) && head < FAT_BAD
    ensures head == 0 ==> fat.dev.fat == old(fat.dev.fat)
    ensures head != 0 ==>
      Grown(old(fat.dev.fat), [], fat.dev.fat, [head]) && AddedZero(fat.dev.g, fat.dev.sectors, [], [head])
    ensures Grows(fat.dev.g, [], false, old(View(fat, [], false)), View(fat, if head == 0 then [] else [head], false))
    ensures old(fat.Exact()) ==> fat.Exact()
  {
    ghost var t := fat.dev.fat;
    head := Extend(fat, 0, [], false);
    assert [] + [head] == [head];
    if head != 0 {
      GrownStep(t, [], t, [], head);
    }
  }

  /** From a chain that is known to have clusters: walks to its end, lengthens it, and gives back what
      was taken if that fails. */
  method GrowFrom(fat: Fat, first: nat, head: nat, had: nat, need: nat, ghost t: Table, ghost cs: seq<nat>,
      ghost from: seq<nat>)
    returns (ok: bool, ghost ch: seq<nat>)
    requires fat.Valid() && |t| == fat.dev.g.Limit() && Owns(t, cs) && HeadOf(cs, first)
    requires Grown(t, cs, fat.dev.fat, from) && 0 < had == |from| <= need && head == from[0]
    requires cs != [] ==> from == cs
    requires AddedZero(fat.dev.g, fat.dev.sectors, cs, from)
    modifies fat, fat.dev
    ensures fat.Valid()
    ensures ok <==> need - |cs| <= FreeCount(t)
    ensures ok ==> Grown(t, cs, fat.dev.fat, ch) && |ch| == need && ch[0] == head
    ensures ok ==> AddedZero(fat.dev.g, fat.dev.sectors, cs, ch)
    ensures !ok ==> ch == cs && fat.dev.fat == Capped(t, cs)
    ensures Grows(fat.dev.g, cs, need <= |cs| + 1 && cs != [], old(View(fat, from, cs != [])), View(fat, ch, cs != []))
    ensures old(fat.Exact()) ==> fat.Exact()
  {
    ghost var g, a, live, once := fat.dev.g, View(fat, from, cs != []), cs != [], need <= |cs| + 1 && cs != [];
    var cur := NthOf(fat, head, had - 1, from, live);
    ghost var b := View(fat, from, live);
    GrowsTable(g, cs, once, a, b);
    AddedFatFrame(g, a.image, b.image, cs, from);
    LongerIs(g, t, cs, b);
    ok, ch := Lengthen(fat, cur, had, need, t, cs, from, live);
    ghost var e := View(fat, ch, live);
    GrowsTrans(g, cs, once, a, b, e);
    LongerIs(g, t, cs, e);
    if !ok {
      GiveBack(fat, first, head, had, t, cs, ch);
      GrowsTable(g, cs, once, e, View(fat, cs, live));
      GrowsTrans(g, cs, once, a, e, View(fat, cs, live));
      ch := cs;
    }
  }

  lemma AddedFatFrame(g: Geometry, a: Image, b: Image, cs: seq<nat>, ch: seq<nat>)
    requires g.Valid() && Fits(g, a) && SameOutsideFat(g, b, a) && AddedZero(g, a, cs, ch)
    ensures AddedZero(g, b, cs, ch)
  {
    forall i | |cs| <= i < |ch| ensures ZeroedCluster(g, b, ch[i]) {
      FatFrame(g, a, b, ch[i]);
      assert ZeroedCluster(g, a, ch[i]);
    }
  }

  /** The failure branch of `ensure_chain`. */
  method GiveBack(fat: Fat, first: nat, head: nat, had: nat, ghost t: Table, ghost cs: seq<nat>, ghost ch: seq<nat>)
    requires fat.Valid() && Owns(t, cs) && HeadOf(cs, first) && Grown(t, cs, fat.dev.fat, ch)
    requires ch != [] && head == ch[0] && (cs != [] ==> had == |cs|)
    modifies fat, fat.dev
    ensures fat.Valid() && fat.dev.fat == Capped(t, cs)
    ensures TableOnly(fat.dev.g, old(View(fat, ch, cs != [])), View(fat, cs, cs != []))
    ensures ch == cs ==> Trunk(cs, old(View(fat, ch, cs != [])), View(fat, cs, cs != []))
    ensures Evolves(fat.dev.g, old(View(fat, ch, cs != [])), View(fat, cs, cs != []))
    ensures old(fat.Exact()) ==> fat.Exact()
  {
    UndoGrowth(t, cs, fat.dev.fat, ch);
    if first < 2 {
      ghost var a := View(fat, ch, false);
      assert ch[|cs|..] == ch;
      FreeOwned(fat, head, ch);
      ReleaseStep(fat.dev.g, a, View(fat, cs, false));
    } else {
      Rollback(fat, first, had, t, cs, ch);
    }
  }
}
