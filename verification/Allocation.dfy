/** The cluster allocator and the chain walks over the cached table (kernel/fat32.c:174-312). */
module Allocation {
  import opened Bytes
  import opened Geometry
  import opened Chains
  import opened FatCache

  const UNKNOWN: nat := 0xFFFF_FFFF

  /** `free_chain` after some iterations: the table so far and the cluster to free next. */
  datatype Freeing = Freeing(table: Table, cluster: nat)

  /** The state of `free_chain`, started at `first` on table `t`, after `n` iterations. The table may
      hold anything: loops, links out of range, links to free entries. */
  ghost function FreeState(t: Table, first: nat, n: nat): (f: Freeing)
    ensures |f.table| == |t|
  {
    if n == 0 then Freeing(t, first)
    else FreeStep(FreeState(t, first, n - 1))
  }

  ghost function FreeStep(f: Freeing): (r: Freeing)
    ensures |r.table| == |f.table|
  {
    if 2 <= f.cluster < |f.table|
    then Freeing(f.table[f.cluster := 0], f.table[f.cluster])
    else f
  }

  /** On a chain the iterations free the chain front to back and then meet its end marker. */
  lemma {:induction false} FreeStateOnChain(t: Table, cs: seq<nat>, k: nat)
    requires IsChain(t, cs) && k <= |cs|
    ensures FreeState(t, cs[0], k).table == Freed(t, cs[..k])
    ensures FreeState(t, cs[0], k).cluster == if k < |cs| then cs[k] else t[cs[|cs| - 1]]
  {
    if k == 0 {
      assert Freed(t, cs[..0]) == t;
    } else {
      FreeStateOnChain(t, cs, k - 1);
      FreedStep(t, cs, k - 1);
    }
  }

  ghost function NonZeroSet(t: Table): set<nat> {
    set c: nat | c < |t| && t[c] != 0
  }

  ghost function NonZero(t: Table): nat {
    |NonZeroSet(t)|
  }

  lemma NonZeroDrops(t: Table, c: nat)
    requires c < |t| && t[c] != 0
    ensures NonZero(t[c := 0]) < NonZero(t)
  {
    assert NonZeroSet(t[c := 0]) == NonZeroSet(t) - {c};
  }

  /** Iteration `j` frees a cluster that was in use. */
  ghost predicate FreesOne(t: Table, first: nat, j: nat) {
    var f := FreeState(t, first, j);
    2 <= f.cluster < |t| && f.table[f.cluster] != 0
  }

  lemma FreeMeasure(t: Table, c: nat)
    ensures 2 <= c < |t| && t[c] != 0 ==> NonZero(t[c := 0]) < NonZero(t)
    ensures 2 <= c < |t| && t[c] == 0 ==> t[c := 0] == t
  {
    if 2 <= c < |t| {
      if t[c] != 0 {
        NonZeroDrops(t, c);
      } else {
        assert t[c := 0] == t;
      }
    }
  }

  /** A run of `free_chain` that starts at the head of a chain frees exactly the chain. */
  lemma FreedAll(t: Table, cs: seq<nat>, n: nat)
    requires IsChain(t, cs)
    requires !(2 <= FreeState(t, cs[0], n).cluster < |t|)
    requires forall j :: 0 <= j < n ==> IsLink(FreeState(t, cs[0], j).cluster)
    ensures n == |cs| && FreeState(t, cs[0], n).table == Freed(t, cs)
    ensures forall j :: 0 <= j <= n ==> FreeState(t, cs[0], j).table == Freed(t, cs[..j])
    ensures forall j :: 0 <= j < n ==> FreesOne(t, cs[0], j)
  {
    if n < |cs| {
      FreeStateOnChain(t, cs, n);
    }
    if |cs| < n {
      FreeStateOnChain(t, cs, |cs|);
    }
    assert cs[..|cs|] == cs;
    forall j | 0 <= j <= |cs| ensures FreeState(t, cs[0], j).table == Freed(t, cs[..j]) {
      FreeStateOnChain(t, cs, j);
    }
    forall j | 0 <= j < |cs| ensures FreesOne(t, cs[0], j) {
      FreeStateOnChain(t, cs, j);
      FreedStep(t, cs, j);
    }
  }

  lemma FreedStep(t: Table, cs: seq<nat>, i: nat)
    requires IsChain(t, cs) && i < |cs|
    ensures Freed(t, cs[..i])[cs[i]] == t[cs[i]] != 0
    ensures Freed(t, cs[..i + 1]) == Freed(t, cs[..i])[cs[i] := 0]
    ensures FreeCount(Freed(t, cs[..i + 1])) == FreeCount(Freed(t, cs[..i])) + 1
    ensures i + 1 < |cs| ==> t[cs[i]] == cs[i + 1]
    ensures i + 1 == |cs| ==> FAT_BAD <= t[cs[i]]
  {
    assert Traced(0);
    ChainAcyclic(t, cs);
    ChainNonZero(t, cs);
    assert cs[i] !in cs[..i];
    assert cs[..i + 1] == cs[..i] + [cs[i]];
    FreeCountGive(Freed(t, cs[..i]), cs[i]);
  }

  /** A chain has no more clusters than the volume. */
  lemma ChainFits(t: Table, cs: seq<nat>)
    requires IsChain(t, cs)
    ensures |cs| <= |t| - 2
  {
    ChainAcyclic(t, cs);
    SeqCard(cs);
    SubsetCard(Elems(cs), Clusters(|t|));
  }

  ghost function Elems(cs: seq<nat>): set<nat> {
    set c | c in cs
  }

  lemma {:induction false} SeqCard(cs: seq<nat>)
    requires Distinct(cs)
    ensures |Elems(cs)| == |cs|
  {
    if cs != [] {
      var n := |cs| - 1;
      SeqCard(cs[..n]);
      assert cs == cs[..n] + [cs[n]];
      assert Elems(cs) == Elems(cs[..n]) + {cs[n]};
    }
  }

  /** The table after free cluster `c` became a chain end, linked after `prev` if there is one. */
  ghost function Linked(t: Table, prev: nat, c: nat): (u: Table)
    requires c < |t| && prev < |t|
  {
    if prev == 0 then t[c := FAT_MASK] else t[c := FAT_MASK][prev := c]
  }

  lemma LinkedCount(t: Table, prev: nat, c: nat)
    requires 2 <= c < |t| && prev < |t| && t[c] == 0
    requires prev == 0 || t[prev] != 0
    ensures FreeCount(Linked(t, prev, c)) == FreeCount(t) - 1
  {
    FreeCountTake(t, c, FAT_MASK);
    if prev != 0 {
      FreeCountSame(t[c := FAT_MASK], prev, c);
    }
  }

  /** The entries of clusters `lo` to `hi - 1` of the walk from `first` all lie in table sector `lba`. */
  ghost predicate InSector(g: Geometry, t: Table, first: nat, lo: nat, hi: nat, lba: nat) {
    forall i :: lo <= i < hi ==> lba == g.fatLba + Walk(t, first, i) / 128
  }

  ghost predicate Crossed(n: int) { true }

  ghost predicate Toured(n: int) { true }

  /** Those entries were read, in order: what was unwritten stays so only if none of them lies elsewhere.
      Folded behind `Crossed`. */
  ghost predicate Passed(g: Geometry, t: Table, first: nat, lo: nat, hi: nat, a: Held, b: Held) {
    forall n: int :: Crossed(n) ==>
      (b.dirty <==> a.dirty && InSector(g, t, first, lo, hi, a.lba)) && (b.dirty ==> b == a)
  }

  /** The cache together with the remembered position: what decides which table sectors a walk reads. */
  datatype Cursor = Cursor(held: Held, first: nat, index: nat, cluster: nat)

  /** Where a walk from `first` to its cluster `index` starts: at the remembered position if that helps. */
  ghost function Resume(c: Cursor, first: nat, index: nat): (i: nat)
    ensures i <= index
  {
    if c.cluster >= 2 && c.first == first && c.index <= index then c.index else 0
  }

  ghost predicate PointsTo(c: Cursor, first: nat, index: nat) {
    c.first == first && c.index == index && c.cluster >= 2
  }

  /** Cluster `index` of the chain from `first` was looked up; folded behind `Toured`. */
  ghost predicate Looked(g: Geometry, t: Table, first: nat, index: nat, a: Cursor, b: Cursor) {
    forall n: int :: Toured(n) ==>
      PointsTo(b, first, index) && Passed(g, t, first, Resume(a, first, index), index, a.held, b.held)
  }

  /** From a forgotten position on, clusters up to `index` were looked up in order; folded behind `Toured`. */
  ghost predicate Walked(g: Geometry, t: Table, first: nat, index: nat, a: Cursor, b: Cursor) {
    forall n: int :: Toured(n) ==>
      && (!a.held.dirty ==> !b.held.dirty)
      && (a.cluster < 2 ==> PointsTo(b, first, index) && Passed(g, t, first, 0, index, a.held, b.held))
  }

  /** The same, or nothing was looked up so far; folded behind `Toured`. */
  ghost predicate Walking(g: Geometry, t: Table, first: nat, index: nat, a: Cursor, b: Cursor) {
    forall n: int :: Toured(n) ==> b == a || (b.index <= index && Walked(g, t, first, b.index, a, b))
  }

  lemma WalkingNone(g: Geometry, t: Table, first: nat, index: nat, a: Cursor)
    ensures Walking(g, t, first, index, a, a)
  {
  }

  lemma WalkedOn(g: Geometry, t: Table, first: nat, i: nat, j: nat, a: Cursor, b: Cursor, c: Cursor)
    requires i <= j && Walking(g, t, first, i, a, b) && Looked(g, t, first, j, b, c)
    ensures Walked(g, t, first, j, a, c) && Walking(g, t, first, j, a, c)
  {
    assert Crossed(0) && Toured(0);
  }

  lemma WalkingMore(g: Geometry, t: Table, first: nat, i: nat, j: nat, a: Cursor, b: Cursor)
    requires i <= j && Walking(g, t, first, i, a, b)
    ensures Walking(g, t, first, j, a, b)
  {
    assert Toured(0);
  }

  /** A clean cache stays clean. */
  lemma WalkedClean(g: Geometry, t: Table, first: nat, index: nat, a: Cursor, b: Cursor)
    requires Walked(g, t, first, index, a, b)
    ensures !a.held.dirty ==> !b.held.dirty
  {
    assert Toured(0);
  }

  lemma PassedNone(g: Geometry, t: Table, first: nat, i: nat, a: Held)
    ensures Passed(g, t, first, i, i, a, a)
  {
  }

  lemma PassedOne(g: Geometry, t: Table, first: nat, lo: nat, i: nat, a: Held, b: Held, c: Held)
    requires lo <= i && Passed(g, t, first, lo, i, a, b) && Fetched(g.fatLba + Walk(t, first, i) / 128, b, c)
    ensures Passed(g, t, first, lo, i + 1, a, c)
  {
    assert Crossed(0);
  }

  /** `c` is the free cluster a search from `hint` meets first. */
  ghost predicate NextFree(t: Table, hint: nat, c: nat) {
    var start := if hint < 2 then 2 else hint;
    && 2 <= c < |t| && t[c] == 0
    && if start <= c then forall x :: start <= x < c ==> t[x] != 0
       else (forall x :: start <= x < |t| ==> t[x] != 0) && forall x :: 2 <= x < c ==> t[x] != 0
  }

  /** One cluster more is free, and the count still fits. */
  lemma GivenCount(t: Table, c: nat)
    requires 2 <= |t| <= FAT_BAD
    ensures FreeCount(t) < UNKNOWN
    ensures 2 <= c < |t| && t[c] != 0 ==> FreeCount(t[c := 0]) == FreeCount(t) + 1 && FreeCount(t) + 1 < UNKNOWN
  {
    FreeCountBound(t);
    if 2 <= c < |t| && t[c] != 0 {
      FreeCountGive(t, c);
      FreeCountBound(t[c := 0]);
    }
  }

  class Fat {
    const dev: FatCache
    var freeHint: nat
    var freeCount: nat          // UNKNOWN until counted
    var memoFirst: nat
    var memoIndex: nat
    var memoCluster: nat
    ghost var linkSteps: nat    // links followed by ChainNth so far

    /** The remembered position is where the plain walk on the current table would be. */
    ghost predicate MemoOk()
      reads this, dev
    {
      memoCluster >= 2 ==> Walk(dev.fat, memoFirst, memoIndex) == memoCluster
    }

    ghost predicate Valid()
      reads this, dev
    {
      dev.Valid() && MemoOk()
    }

    ghost predicate Exact()
      reads this, dev
    {
      freeCount == FreeCount(dev.fat)
    }

    /** The hint and the count may come from the FSInfo sector, so nothing is demanded of them. */
    constructor (d: FatCache, hint: nat, count: nat)
      requires d.Valid()
      ensures Valid() && dev == d && freeHint == hint && freeCount == count && linkSteps == 0
    {
      dev, freeHint, freeCount := d, hint, count;
      memoFirst, memoIndex, memoCluster := 0, 0, 0;
      linkSteps := 0;
    }

    ghost function At(): Cursor
      reads this, dev
    {
      Cursor(dev.Holds(), memoFirst, memoIndex, memoCluster)
    }

    method Forget()
      modifies this`memoFirst, this`memoIndex, this`memoCluster
      ensures memoFirst == memoIndex == memoCluster == 0
    {
      memoFirst, memoIndex, memoCluster := 0, 0, 0;
    }

    /** `fat_set`. The memo survives if it is forgotten or if the entry held no link. */
    method SetEntry(c: nat, v: nat) returns (ok: bool)
      requires Valid() && v <= FAT_MASK
      requires v == 0 || v == FAT_MASK || !IsLink(GetOf(dev.fat, c))
      modifies dev, this`memoFirst, this`memoIndex, this`memoCluster
      ensures Valid()
      ensures ok == dev.g.InRange(c)
      ensures dev.fat == if ok then old(dev.fat)[c := v] else old(dev.fat)
      ensures ok && old(!dev.dirty) ==> dev.Holds() == Held(true, dev.g.fatLba + c / 128, old(dev.fat))
      ensures ok && (v == 0 || v == FAT_MASK) ==> memoCluster == 0
      ensures SameOutsideFat(dev.g, dev.sectors, old(dev.sectors))
      ensures Logged(dev.g, old(dev.log), dev.log, old(dev.fat), old(dev.sectors))
    {
      if !dev.g.InRange(c) {
        return false;
      }
      if v == 0 || v == FAT_MASK {
        Forget();
      }
      ok := dev.Set(c, v);
      if memoCluster >= 2 {
        WalkFrame(old(dev.fat), dev.fat, c, memoFirst, memoIndex);
      }
    }

    /** Takes a free cluster as a chain end and links it after `prev`. Answers 0 exactly when the
        volume has no free cluster, wherever the search hint happens to point. */
    method AllocCluster(prev: nat) returns (r: nat)
      requires Valid()
      requires prev == 0 || (dev.g.InRange(prev) && FAT_BAD <= dev.fat[prev])
      modifies this, dev
      ensures Valid() && linkSteps == old(linkSteps)
      ensures r == 0 <==> FreeCount(old(dev.fat)) == 0
      ensures r == 0 ==> dev.fat == old(dev.fat) && freeCount == old(freeCount) && freeHint == old(freeHint)
      ensures r != 0 ==> dev.g.InRange(r) && old(dev.fat)[r] == 0 && freeHint == r + 1
      ensures r != 0 ==> dev.fat == Linked(old(dev.fat), prev, r) && NextFree(old(dev.fat), old(freeHint), r)
      ensures r != 0 && prev == 0 && old(!dev.dirty) ==>
        dev.Holds() == Held(true, dev.g.fatLba + r / 128, old(dev.fat)) && memoCluster == 0
      ensures old(Exact()) ==> Exact()
      ensures SameOutsideFat(dev.g, dev.sectors, old(dev.sectors))
      ensures forall i :: |old(dev.log)| <= i < |dev.log| ==>
        && SameOutsideFat(dev.g, dev.log[i].image, old(dev.sectors))
        && (dev.log[i].table == old(dev.fat) || (r != 0 && dev.log[i].table == old(dev.fat)[r := FAT_MASK]))
      ensures old(dev.log) <= dev.log
    {
      FreeCountBound(dev.fat);
      var start := if freeHint < 2 then 2 else freeHint;
      var limit := dev.g.Limit();
      for pass := 0 to 2
        invariant Valid() && linkSteps == old(linkSteps)
        invariant dev.fat == old(dev.fat) && freeCount == old(freeCount) && freeHint == old(freeHint)
        invariant old(!dev.dirty) ==> !dev.dirty
        invariant SameOutsideFat(dev.g, dev.sectors, old(dev.sectors))
        invariant Logged(dev.g, old(dev.log), dev.log, old(dev.fat), old(dev.sectors))
        invariant pass > 0 ==> forall c :: start <= c < limit ==> dev.fat[c] != 0
        invariant pass > 1 ==> forall c :: 2 <= c < start && c < limit ==> dev.fat[c] != 0
      {
        var c, to := if pass == 0 then start else 2, if pass == 0 then limit else start;
        ghost var from := c;
        while c < to
          invariant from <= c
          invariant Valid() && linkSteps == old(linkSteps)
          invariant dev.fat == old(dev.fat) && freeCount == old(freeCount) && freeHint == old(freeHint)
          invariant old(!dev.dirty) ==> !dev.dirty
          invariant SameOutsideFat(dev.g, dev.sectors, old(dev.sectors))
          invariant Logged(dev.g, old(dev.log), dev.log, old(dev.fat), old(dev.sectors))
          invariant forall c' :: from <= c' < c && c' < limit ==> dev.fat[c'] != 0
        {
          var v := dev.Get(c);
          if v == 0 {
            Take(prev, c);
            return c;
          }
          c := c + 1;
        }
      }
      return 0;
    }

    /** The body of the allocation loop, once a free cluster is found. */
    method Take(prev: nat, c: nat)
      requires Valid()
      requires dev.g.InRange(c) && dev.fat[c] == 0
      requires prev == 0 || (dev.g.InRange(prev) && FAT_BAD <= dev.fat[prev])
      modifies this, dev
      ensures Valid() && linkSteps == old(linkSteps) && freeHint == c + 1
      ensures dev.fat == Linked(old(dev.fat), prev, c)
      ensures prev == 0 && old(!dev.dirty) ==>
        dev.Holds() == Held(true, dev.g.fatLba + c / 128, old(dev.fat)) && memoCluster == 0
      ensures old(Exact()) ==> Exact()
      ensures SameOutsideFat(dev.g, dev.sectors, old(dev.sectors))
      ensures forall i :: |old(dev.log)| <= i < |dev.log| ==>
        && SameOutsideFat(dev.g, dev.log[i].image, old(dev.sectors))
        && (dev.log[i].table == old(dev.fat) || dev.log[i].table == old(dev.fat)[c := FAT_MASK])
      ensures old(dev.log) <= dev.log
    {
      FreeCountBound(dev.fat);
      LinkedCount(dev.fat, prev, c);
      var _ := SetEntry(c, FAT_MASK);
      if prev != 0 {
        var _ := SetEntry(prev, c);
      }
      freeHint := c + 1;
      if freeCount != UNKNOWN && freeCount != 0 {
        freeCount := freeCount - 1;
      }
    }

    /** The body of the freeing loop. */
    method FreeOne(cluster: nat) returns (next: nat, ok: bool)
      requires Valid()
      modifies this, dev
      ensures Valid() && linkSteps == old(linkSteps)
      ensures ok == dev.g.InRange(cluster)
      ensures next == GetOf(old(dev.fat), cluster)
      ensures dev.fat == if ok then old(dev.fat)[cluster := 0] else old(dev.fat)
      ensures ok && old(dev.fat)[cluster] != 0 && old(Exact()) ==> Exact()
      ensures !ok ==> freeCount == old(freeCount)
      ensures SameOutsideFat(dev.g, dev.sectors, old(dev.sectors))
      ensures Logged(dev.g, old(dev.log), dev.log, old(dev.fat), old(dev.sectors))
    {
      GivenCount(dev.fat, cluster);
      next := dev.Get(cluster);
      ok := SetEntry(cluster, 0);
      if !ok {
        return;
      }
      if freeCount != UNKNOWN {
        freeCount := (freeCount + 1) % WORD;
      }
      if cluster < freeHint {
        freeHint := cluster;
      }
    }

    /** Frees clusters from `first` on, and halts on any table. `n` counts the iterations; every table
        flushed on the way is the table after some number of them. */
    method FreeChain(first: nat) returns (ghost n: nat)
      requires Valid()
      modifies this, dev
      ensures Valid() && linkSteps == old(linkSteps)
      ensures dev.fat == FreeState(old(dev.fat), first, n).table
      ensures var c := FreeState(old(dev.fat), first, n).cluster; !IsLink(c) || !dev.g.InRange(c)
      ensures forall j :: 0 <= j < n ==> IsLink(FreeState(old(dev.fat), first, j).cluster)
      ensures old(Exact()) && (forall j :: 0 <= j < n ==> FreesOne(old(dev.fat), first, j)) ==> Exact()
      ensures SameOutsideFat(dev.g, dev.sectors, old(dev.sectors))
      ensures old(dev.log) <= dev.log
      ensures forall i :: |old(dev.log)| <= i < |dev.log| ==>
        && SameOutsideFat(dev.g, dev.log[i].image, old(dev.sectors))
        && exists j :: 0 <= j <= n && dev.log[i].table == FreeState(old(dev.fat), first, j).table
    {
      ghost var t := dev.fat;
      var cluster: nat := first;
      n := 0;
      ghost var used := true;
      while 2 <= cluster < FAT_BAD
        invariant Valid() && linkSteps == old(linkSteps)
        invariant Freeing(dev.fat, cluster) == FreeState(t, first, n)
        invariant forall j :: 0 <= j < n ==> IsLink(FreeState(t, first, j).cluster)
        invariant (forall j :: 0 <= j < n ==> FreesOne(t, first, j)) ==> used
        invariant old(Exact()) && used ==> Exact()
        invariant SameOutsideFat(dev.g, dev.sectors, old(dev.sectors))
        invariant old(dev.log) <= dev.log
        invariant forall i :: |old(dev.log)| <= i < |dev.log| ==>
          && SameOutsideFat(dev.g, dev.log[i].image, old(dev.sectors))
          && exists j :: 0 <= j <= n && dev.log[i].table == FreeState(t, first, j).table
        decreases NonZero(dev.fat), if cluster < 2 then 0 else 1
      {
        FreeMeasure(dev.fat, cluster);
        used := used && FreesOne(t, first, n);
        var next, ok := FreeOne(cluster);
        if !ok {
          return;
        }
        assert Freeing(dev.fat, next) == FreeState(t, first, n + 1);
        cluster := next;
        n := n + 1;
      }
    }

    /** The `index`-th cluster of the chain from `first`: always the plain walk's answer, whatever
        was remembered; and never more link steps than the walk from the head. */
    method ChainNth(first: nat, index: nat) returns (r: nat)
      requires Valid()
      modifies dev, this`memoFirst, this`memoIndex, this`memoCluster, this`linkSteps
      ensures Valid() && dev.fat == old(dev.fat)
      ensures r == Walk(dev.fat, first, index)
      ensures r != 0 ==> memoFirst == first && memoIndex == index && memoCluster == r
      ensures r != 0 ==> Looked(dev.g, dev.fat, first, index, old(At()), At())
      ensures linkSteps <= old(linkSteps) + index
      ensures old(memoCluster) >= 2 && old(memoFirst) == first && old(memoIndex) <= index ==>
        linkSteps <= old(linkSteps) + index - old(memoIndex)
      ensures SameOutsideFat(dev.g, dev.sectors, old(dev.sectors))
      ensures Logged(dev.g, old(dev.log), dev.log, dev.fat, old(dev.sectors))
      ensures old(!dev.dirty) ==> !dev.dirty && dev.log == old(dev.log)
    {
      if first < 2 {
        return 0;
      }
      var cur, i := first, 0;
      if memoCluster >= 2 && memoFirst == first && memoIndex <= index {
        cur, i := memoCluster, memoIndex;
      }
      cur := Follow(first, i, index, cur);
      if cur == 0 {
        return 0;
      }
      memoFirst, memoIndex, memoCluster := first, index, cur;
      return cur;
    }

    /** The link steps of `chain_nth`, from cluster `from` of the walk to cluster `index`. */
    method Follow(first: nat, from: nat, index: nat, start: nat) returns (cur: nat)
      requires Valid() && from <= index && 2 <= start == Walk(dev.fat, first, from)
      modifies dev, this`linkSteps
      ensures Valid() && dev.fat == old(dev.fat) && cur == Walk(dev.fat, first, index)
      ensures cur != 0 ==> 2 <= cur && Passed(dev.g, dev.fat, first, from, index, old(dev.Holds()), dev.Holds())
      ensures linkSteps <= old(linkSteps) + index - from
      ensures SameOutsideFat(dev.g, dev.sectors, old(dev.sectors))
      ensures Logged(dev.g, old(dev.log), dev.log, dev.fat, old(dev.sectors))
      ensures old(!dev.dirty) ==> !dev.dirty && dev.log == old(dev.log)
    {
      ghost var t, held := dev.fat, dev.Holds();
      PassedNone(dev.g, t, first, from, held);
      cur := start;
      for i := from to index
        invariant Valid() && dev.fat == t && 2 <= cur == Walk(t, first, i)
        invariant linkSteps == old(linkSteps) + i - from
        invariant Passed(dev.g, t, first, from, i, held, dev.Holds())
        invariant SameOutsideFat(dev.g, dev.sectors, old(dev.sectors))
        invariant Logged(dev.g, old(dev.log), dev.log, t, old(dev.sectors))
        invariant old(!dev.dirty) ==> !dev.dirty && dev.log == old(dev.log)
      {
        ghost var before := dev.Holds();
        var next := dev.Get(cur);
        linkSteps := linkSteps + 1;
        WalkOn(t, first, i, index);
        if next < 2 || next >= FAT_BAD {
          return 0;
        }
        PassedOne(dev.g, t, first, from, i, held, before, dev.Holds());
        cur := next;
      }
    }

    /** Counts the clusters the plain walk from `first` visits, giving up one past the volume's size
        so that a cyclic table cannot hold it. */
    method ChainLength(first: nat) returns (n: nat)
      requires Valid()
      modifies dev
      ensures Valid() && dev.fat == old(dev.fat)
      ensures n <= dev.g.totalClusters + 1
      ensures forall j :: 0 <= j < n ==> Walk(dev.fat, first, j) != 0
      ensures IsLink(first) && n <= dev.g.totalClusters ==> Walk(dev.fat, first, n) == 0
      ensures !IsLink(first) ==> n == 0
      ensures old(!dev.dirty) ==> !dev.dirty
      ensures SameOutsideFat(dev.g, dev.sectors, old(dev.sectors))
      ensures Logged(dev.g, old(dev.log), dev.log, dev.fat, old(dev.sectors))
    {
      if first < 2 {
        return 0;
      }
      n := 0;
      var cur: nat := first;
      while 2 <= cur < FAT_BAD && n <= dev.g.totalClusters
        invariant Valid() && dev.fat == old(dev.fat)
        invariant n <= dev.g.totalClusters + 1
        invariant forall j :: 0 <= j < n ==> Walk(dev.fat, first, j) != 0
        invariant IsLink(first) ==> Walk(dev.fat, first, n) == if IsLink(cur) then cur else 0
        invariant !IsLink(first) ==> n == 0 && cur == first
        invariant old(!dev.dirty) ==> !dev.dirty
        invariant SameOutsideFat(dev.g, dev.sectors, old(dev.sectors))
        invariant Logged(dev.g, old(dev.log), dev.log, dev.fat, old(dev.sectors))
        decreases dev.g.totalClusters + 1 - n
      {
        WalkCompose(dev.fat, first, n, 1);
        n := n + 1;
        cur := dev.Get(cur);
      }
    }
  }
}
